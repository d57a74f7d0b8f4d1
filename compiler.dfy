/** lib/core/compiler.js: the per-type decorators, the walk over the resolved tokens, and the two
    compilers built from the decoration tables. */
module Compiler {
  import opened Results
  import opened Utils
  import opened Constants
  import opened Tokenizer
  import opened Parser

  /** What a call of a compiled function throws: the parser's error, or the `TypeError` of reading
      the text through a field `parse` does not return. */
  datatype CompileError = ParseFailed(error: ParseError) | TextUndefined

  /** The counters of the decorators, one per type. */
  type Counters = map<Kind, int>

  /** Every type has a counter, and each counter is 0 or 1. */
  ghost predicate ValidCounters(c: Counters) {
    forall k: Kind :: k in c && (c[k] == 0 || c[k] == 1)
  }

  /** The counters of freshly made decorators. */
  function Zeros(): (c: Counters)
    ensures ValidCounters(c) && forall k: Kind :: c[k] == 0
  {
    var c := map[Bold := 0, Italic := 0, Monospaced := 0, Preformatted := 0, Paragraph := 0];
    EveryKindIn(c);
    c
  }

  /** A map display that names the five types covers every type. */
  lemma EveryKindIn<V>(c: map<Kind, V>)
    requires Bold in c && Italic in c && Monospaced in c && Preformatted in c && Paragraph in c
    ensures forall k: Kind :: k in c
  {
    forall k: Kind ensures k in c {
      match k {
        case Bold =>
        case Italic =>
        case Monospaced =>
        case Preformatted =>
        case Paragraph =>
      }
    }
  }

  // --------------------------------------------------------------- decorators

  /** One call of the decorator of type `kind`: the text from `offset` up to the token's index, then
      the decoration its counter `i` selects. */
  function Decorate(format: Format, kind: Kind, text: string, offset: nat, index: nat, i: int): string
    requires i == 0 || i == 1
  {
    DecorationShapes(format, kind);
    Slice(text, offset, index) + Mapping(format, kind)[i]
  }

  /** `createCompiler(map, type)`: the closure, with its decoration list and its counter `i`. */
  class TypeCompiler {
    const kind: Kind
    const format: Format
    const mapping: seq<string>
    var i: int

    ghost predicate Valid()
      reads this
    {
      mapping == Mapping(format, kind) && (i == 0 || i == 1)
    }

    constructor (format: Format, kind: Kind)
      ensures this.format == format && this.kind == kind && i == 0 && Valid()
    {
      this.format := format;
      this.kind := kind;
      mapping := Mapping(format, kind);
      i := 0;
    }

    /** A call of the closure: it returns the slice and the selected decoration and flips its
        counter. */
    method Apply(src: string, token: TokenValue, offset: nat) returns (compiled: string)
      requires Valid()
      modifies this
      ensures Valid() && i == Toggle(old(i))
      ensures compiled == Decorate(format, kind, src, offset, token.index, old(i))
    {
      DecorationShapes(format, kind);
      var slice := Slice(src, offset, token.index);
      compiled := slice + mapping[i];
      i := Toggle(i);
    }
  }

  // --------------------------------------------------------------------- walk

  /** The counters after the loop of `compile` has passed `tokens`: each token flips the counter of
      its type. */
  function CountersAfter(tokens: seq<TokenValue>, counters: Counters): (r: Counters)
    requires ValidCounters(counters)
    ensures ValidCounters(r)
    decreases |tokens|
  {
    if |tokens| == 0 then counters
    else
      var n := |tokens| - 1;
      var c := CountersAfter(tokens[..n], counters);
      c[tokens[n].kind := Toggle(c[tokens[n].kind])]
  }

  /** The offset in front of token `j`: 0, or just past the marker of token `j - 1`. */
  function OffsetBefore(tokens: seq<TokenValue>, j: nat): nat
    requires j <= |tokens|
  {
    if j == 0 then 0 else tokens[j - 1].index + |Marking(tokens[j - 1].kind)|
  }

  /** What the loop of `compile` has appended to `res` after `tokens`: for each token, the output of
      the decorator of its type, called with the offset in front of the token and the counter left
      by the earlier tokens. */
  function WalkOut(format: Format, text: string, tokens: seq<TokenValue>, counters: Counters): string
    requires ValidCounters(counters)
    decreases |tokens|
  {
    if |tokens| == 0 then ""
    else
      var n := |tokens| - 1;
      var t := tokens[n];
      WalkOut(format, text, tokens[..n], counters)
        + Decorate(format, t.kind, text, OffsetBefore(tokens, n), t.index, CountersAfter(tokens[..n], counters)[t.kind])
  }

  /** What a call returns on a parsed text, with the counters it leaves: the document open string,
      the loop's output, the text behind the last marker, and the document close string. */
  function Render(format: Format, parsed: Parsed, counters: Counters): (r: (string, Counters))
    requires ValidCounters(counters)
    ensures ValidCounters(r.1)
  {
    var tokens := parsed.tokens;
    var text := parsed.processed;
    var doc := Mapping(format, Paragraph);
    (doc[2] + WalkOut(format, text, tokens, counters) + Slice(text, OffsetBefore(tokens, |tokens|), |text|) + doc[3],
     CountersAfter(tokens, counters))
  }

  /** A call of the function `compile(map)` returns, as intended: parse, then render the parsed
      text. A parse error is thrown before any counter moves. */
  function CompileSpec(format: Format, counters: Counters, src: string): (r: Result<(string, Counters), CompileError>)
    requires ValidCounters(counters)
    ensures r.Err? <==> ParseSpec(src).Err?
    ensures r.Err? ==> r.error == ParseFailed(ParseSpec(src).error)
  {
    match ParseSpec(src)
    case Err(e) => Err(ParseFailed(e))
    case Ok(parsed) => Ok(Render(format, parsed, counters))
  }

  /** The same call with the defect of reading `sanitized` as written: the text is read from
      `sanitized`, which `parse` does not return, so once parsing succeeds the first `slice` on it
      throws, before any counter moves. It runs over the corrected parse, so a nested error carries
      the index `NestedError` gives, not the slice position `NestedErrorAsWritten` gives. */
  function CompileAsWritten(src: string): (r: Result<string, CompileError>)
    ensures r.Err?
    ensures r == Err(TextUndefined) <==> ParseSpec(src).Ok?
  {
    match ParseSpec(src)
    case Err(e) => Err(ParseFailed(e))
    case Ok(_) => Err(TextUndefined)
  }

  // ----------------------------------------------------------------- compilers

  /** `createCompilers(map)`: one fresh decorator per type, each with its own counter. */
  method CreateCompilers(format: Format) returns (compilers: map<Kind, TypeCompiler>)
    ensures forall k: Kind :: k in compilers && fresh(compilers[k])
    ensures forall k: Kind :: compilers[k].format == format && compilers[k].kind == k && compilers[k].i == 0 && compilers[k].Valid()
    ensures forall k: Kind, l: Kind :: k != l ==> compilers[k] != compilers[l]
  {
    compilers := map[];
    for n := 0 to |Types|
      invariant forall k :: k in compilers <==> k in Types[..n]
      invariant forall k :: k in compilers ==> fresh(compilers[k])
      invariant forall k :: k in compilers ==>
        compilers[k].format == format && compilers[k].kind == k && compilers[k].i == 0 && compilers[k].Valid()
      invariant forall k, l :: k in compilers && l in compilers && k != l ==> compilers[k] != compilers[l]
    {
      var c := new TypeCompiler(format, Types[n]);
      compilers := compilers[Types[n] := c];
    }
    assert Types[..|Types|] == Types;
    forall k: Kind ensures k in compilers {
      assert k == Types[0] || k == Types[1] || k == Types[2] || k == Types[3] || k == Types[4];
    }
  }

  /** The function `compile(map)` returns: the document strings and one decorator per type, made
      once and kept, counters included, from one call to the next. */
  class Compiler {
    const format: Format
    const open: string
    const close: string
    const compilers: map<Kind, TypeCompiler>

    ghost predicate Valid()
      reads this, compilers.Values
    {
      && (forall k: Kind :: k in compilers && compilers[k].format == format && compilers[k].kind == k && compilers[k].Valid())
      && (forall k: Kind, l: Kind :: k != l ==> compilers[k] != compilers[l])
      && open == Mapping(format, Paragraph)[2] && close == Mapping(format, Paragraph)[3]
    }

    /** The counters of the decorators. */
    ghost function Counters(): (c: Counters)
      requires Valid()
      reads this, compilers.Values
      ensures ValidCounters(c)
    {
      map k | k in compilers :: compilers[k].i
    }

    /** `compile(map)`. */
    constructor (format: Format)
      ensures this.format == format && Valid() && Counters() == Zeros()
      ensures fresh(compilers.Values)
    {
      this.format := format;
      DecorationShapes(format, Paragraph);
      var doc := Mapping(format, Paragraph);
      open := doc[2];
      close := doc[3];
      var made := CreateCompilers(format);
      compilers := made;
      new;
      assert forall k: Kind :: k in Counters() && Counters()[k] == 0;
    }

    /** A call of the compiled function: the decorators' output over the resolved tokens, between the
        document strings. */
    method Compile(src: string) returns (r: Result<string, CompileError>)
      requires Valid()
      modifies compilers.Values
      ensures Valid()
      ensures match CompileSpec(format, old(Counters()), src)
        case Err(e) => r == Err(e) && Counters() == old(Counters())
        case Ok(out) => r == Ok(out.0) && Counters() == out.1
    {
      ghost var before := Counters();
      var parsed := Parse(src);
      if parsed.Err? {
        return Err(ParseFailed(parsed.error));
      }
      var text := parsed.value.1;
      ghost var tokens := parsed.value.0.items;
      assert tokens == ParseSpec(src).value.tokens && text == ParseSpec(src).value.processed;
      var res, offset := Walk(text, parsed.value.0.items);
      res := open + res + Slice(text, offset, |text|) + close;
      CompileValue(format, before, src, res);
      return Ok(res);
    }

    /** The loop of `compile`: each token goes to the decorator of its type. */
    method Walk(text: string, tokens: seq<TokenValue>) returns (res: string, offset: nat)
      requires Valid()
      modifies compilers.Values
      ensures Valid()
      ensures res == WalkOut(format, text, tokens, old(Counters()))
      ensures offset == OffsetBefore(tokens, |tokens|) && Counters() == CountersAfter(tokens, old(Counters()))
    {
      res, offset := "", 0;
      ghost var start := Counters();
      for n := 0 to |tokens|
        invariant Valid()
        invariant res == WalkOut(format, text, tokens[..n], start)
        invariant offset == OffsetBefore(tokens, n) && Counters() == CountersAfter(tokens[..n], start)
      {
        var token := tokens[n];
        var compiled := Dispatch(text, token, offset);
        WalkStep(format, text, tokens, start, n);
        offset := token.index + |Marking(token.kind)|;
        res := res + compiled;
      }
      assert tokens[..|tokens|] == tokens;
    }

    /** `compilers[token.type](src, token, offset)`: only that decorator's counter moves. */
    method Dispatch(text: string, token: TokenValue, offset: nat) returns (compiled: string)
      requires Valid()
      modifies compilers.Values
      ensures Valid()
      ensures var i := old(Counters())[token.kind];
        && compiled == Decorate(format, token.kind, text, offset, token.index, i)
        && Counters() == old(Counters())[token.kind := Toggle(i)]
    {
      ghost var before := Counters();
      compiled := compilers[token.kind].Apply(text, token, offset);
      forall k: Kind ensures Counters()[k] == before[token.kind := Toggle(before[token.kind])][k] {
        if k != token.kind {
          assert compilers[k] != compilers[token.kind];
        }
      }
    }
  }

  /** `compileHTML`: made once, when the module loads. */
  method CompileHTML() returns (c: Compiler)
    ensures fresh(c) && c.format == Html && c.Valid() && c.Counters() == Zeros()
  {
    c := new Compiler(Html);
  }

  /** `compileANSI`: made once, when the module loads. */
  method CompileANSI() returns (c: Compiler)
    ensures fresh(c) && c.format == Ansi && c.Valid() && c.Counters() == Zeros()
  {
    c := new Compiler(Ansi);
  }

  // ----------------------------------------------------------------- properties

  /** After the walk each counter has moved once per token of its type: it is its starting value
      plus the number of those tokens, modulo 2. */
  lemma {:induction false} WalkCounters(tokens: seq<TokenValue>, counters: Counters, kind: Kind)
    requires ValidCounters(counters)
    ensures CountersAfter(tokens, counters)[kind] == (counters[kind] + Count(tokens, HasKind(kind))) % 2
    decreases |tokens|
  {
    if tokens != [] {
      var n := |tokens| - 1;
      WalkCounters(tokens[..n], counters, kind);
      CountLast(tokens, HasKind(kind));
      CounterStep(CountersAfter(tokens[..n], counters), tokens[n].kind, kind, counters[kind], Count(tokens[..n], HasKind(kind)));
    }
  }

  /** Flipping the counter of `moved` adds one to it, modulo 2, and leaves the others. */
  lemma CounterStep(c: Counters, moved: Kind, kind: Kind, start: int, n: nat)
    requires ValidCounters(c) && (start == 0 || start == 1) && c[kind] == (start + n) % 2
    ensures c[moved := Toggle(c[moved])][kind] == (start + n + if moved == kind then 1 else 0) % 2
  {
  }

  /** One more token: the loop's output grows by that token's decorator call, and only the counter
      of its type flips. */
  lemma WalkStep(format: Format, text: string, tokens: seq<TokenValue>, counters: Counters, n: nat)
    requires ValidCounters(counters) && n < |tokens|
    ensures var c := CountersAfter(tokens[..n], counters);
      var t := tokens[n];
      && WalkOut(format, text, tokens[..n + 1], counters)
         == WalkOut(format, text, tokens[..n], counters) + Decorate(format, t.kind, text, OffsetBefore(tokens, n), t.index, c[t.kind])
      && CountersAfter(tokens[..n + 1], counters) == c[t.kind := Toggle(c[t.kind])]
  {
    var p := tokens[..n + 1];
    assert p[..n] == tokens[..n];
    assert OffsetBefore(p, n) == OffsetBefore(tokens, n);
  }

  /** After a successful call every counter but the paragraph one is back at its starting value,
      because those types come out of `parse` in pairs. */
  lemma CompileCountersKept(format: Format, counters: Counters, src: string, kind: Kind)
    requires ValidCounters(counters) && kind != Paragraph
    ensures CompileSpec(format, counters, src).Ok? ==> CompileSpec(format, counters, src).value.1[kind] == counters[kind]
  {
    if ParseSpec(src).Ok? {
      var parsed := ParseSpec(src).value;
      ParseProperties(src, kind);
      CompileOk(format, counters, src);
      RenderCountersKept(format, parsed, counters, kind);
    }
  }

  /** A call on a text that parses renders the parsed text. */
  lemma CompileOk(format: Format, counters: Counters, src: string)
    requires ValidCounters(counters) && ParseSpec(src).Ok?
    ensures CompileSpec(format, counters, src) == Ok(Render(format, ParseSpec(src).value, counters))
  {
  }

  /** A successful call, from the loop's output over the parsed tokens. */
  lemma CompileValue(format: Format, counters: Counters, src: string, out: string)
    requires ValidCounters(counters) && ParseSpec(src).Ok?
    requires var parsed := ParseSpec(src).value;
      var tokens := parsed.tokens;
      var text := parsed.processed;
      out == Mapping(format, Paragraph)[2] + WalkOut(format, text, tokens, counters)
        + Slice(text, OffsetBefore(tokens, |tokens|), |text|) + Mapping(format, Paragraph)[3]
    ensures CompileSpec(format, counters, src) == Ok((out, CountersAfter(ParseSpec(src).value.tokens, counters)))
  {
    CompileOk(format, counters, src);
  }

  /** Rendering leaves the counter of a type with an even number of tokens where it was. */
  lemma RenderCountersKept(format: Format, parsed: Parsed, counters: Counters, kind: Kind)
    requires ValidCounters(counters) && Count(parsed.tokens, HasKind(kind)) % 2 == 0
    ensures Render(format, parsed, counters).1[kind] == counters[kind]
  {
    WalkCounters(parsed.tokens, counters, kind);
  }

  /** The paragraph counter is never seen: both of its decorations are the same. */
  lemma ParagraphCounterUnseen(format: Format, text: string, offset: nat, index: nat)
    ensures Decorate(format, Paragraph, text, offset, index, 0) == Decorate(format, Paragraph, text, offset, index, 1)
  {
    DecorationShapes(format, Paragraph);
  }

  /** Paragraph tokens that sit on `\n\n` markers of the text, in order and not overlapping. */
  ghost predicate OnParagraphMarkers(text: string, tokens: seq<TokenValue>) {
    && (forall j :: 0 <= j < |tokens| ==>
          tokens[j].kind == Paragraph && tokens[j].index + 2 <= |text| && text[tokens[j].index..tokens[j].index + 2] == "\n\n")
    && (forall i, j :: 0 <= i < j < |tokens| ==> tokens[i].index + 2 <= tokens[j].index)
  }

  /** With ANSI, one paragraph decorator call copies the text from the offset to the end of its
      marker. */
  lemma AnsiParagraphCopies(text: string, offset: nat, index: nat, i: int)
    requires offset <= index && index + 2 <= |text| && text[index..index + 2] == "\n\n" && (i == 0 || i == 1)
    ensures Decorate(Ansi, Paragraph, text, offset, index, i) == text[offset..index + 2]
  {
    DecorationShapes(Ansi, Paragraph);
    assert text[offset..index + 2] == text[offset..index] + text[index..index + 2];
  }

  /** A prefix of `s` followed by the slice behind it is the longer prefix. */
  lemma PrefixJoin(s: string, joined: string, prefix: string, slice: string, a: nat, b: nat)
    requires a <= b <= |s| && prefix == s[..a] && slice == s[a..b] && joined == prefix + slice
    ensures joined == s[..b]
  {
    assert s[..b] == s[..a] + s[a..b];
  }

  /** Token `m` of paragraph tokens on their markers: its marker lies in the text, at or behind the
      offset the walk has reached, and the walk resumes behind it. */
  lemma MarkerAhead(text: string, tokens: seq<TokenValue>, m: nat)
    requires OnParagraphMarkers(text, tokens) && m < |tokens|
    ensures var t := tokens[m];
      && t.kind == Paragraph && OffsetBefore(tokens, m) <= t.index && t.index + 2 <= |text|
      && text[t.index..t.index + 2] == "\n\n" && OffsetBefore(tokens, m + 1) == t.index + 2
  {
    if m > 0 {
      assert tokens[m - 1].index + 2 <= tokens[m].index;
    }
  }

  /** With ANSI, a paragraph token on its marker extends the copied prefix of the text to the end
      of that marker. */
  lemma AnsiWalkStep(text: string, tokens: seq<TokenValue>, counters: Counters, m: nat)
    requires ValidCounters(counters) && m < |tokens|
    requires var t := tokens[m];
      && t.kind == Paragraph && OffsetBefore(tokens, m) <= t.index && t.index + 2 <= |text|
      && text[t.index..t.index + 2] == "\n\n" && OffsetBefore(tokens, m + 1) == t.index + 2
    requires WalkOut(Ansi, text, tokens[..m], counters) == text[..OffsetBefore(tokens, m)]
    ensures WalkOut(Ansi, text, tokens[..m + 1], counters) == text[..OffsetBefore(tokens, m + 1)]
  {
    WalkStep(Ansi, text, tokens, counters, m);
    var offset := OffsetBefore(tokens, m);
    var t := tokens[m];
    var i := CountersAfter(tokens[..m], counters)[t.kind];
    AnsiParagraphCopies(text, offset, t.index, i);
    PrefixJoin(text, WalkOut(Ansi, text, tokens[..m + 1], counters), WalkOut(Ansi, text, tokens[..m], counters),
      Decorate(Ansi, t.kind, text, offset, t.index, i), offset, t.index + 2);
  }

  /** With ANSI, the walk over the first `n` paragraph tokens copies the text up to the end of the
      marker of token `n - 1`. */
  lemma {:induction false} AnsiWalkCopies(text: string, tokens: seq<TokenValue>, counters: Counters, n: nat)
    requires ValidCounters(counters) && OnParagraphMarkers(text, tokens) && n <= |tokens|
    ensures OffsetBefore(tokens, n) <= |text|
    ensures WalkOut(Ansi, text, tokens[..n], counters) == text[..OffsetBefore(tokens, n)]
    decreases n
  {
    if n > 0 {
      AnsiWalkCopies(text, tokens, counters, n - 1);
      MarkerAhead(text, tokens, n - 1);
      AnsiWalkStep(text, tokens, counters, n - 1);
    }
  }

  /** The text a call returns on a parsed text: the document strings around the loop's output and
      the rest of the text. */
  lemma RenderText(format: Format, parsed: Parsed, counters: Counters)
    requires ValidCounters(counters)
    ensures var tokens := parsed.tokens;
      var text := parsed.processed;
      Render(format, parsed, counters).0 == Mapping(format, Paragraph)[2] + WalkOut(format, text, tokens, counters)
        + Slice(text, OffsetBefore(tokens, |tokens|), |text|) + Mapping(format, Paragraph)[3]
  {
  }

  /** With ANSI, a text whose only tokens are paragraph breaks compiles to itself: the paragraph
      decoration is the marker it replaces, and the document strings are empty. */
  lemma AnsiParagraphsIdentity(text: string, tokens: seq<TokenValue>, counters: Counters)
    requires ValidCounters(counters) && OnParagraphMarkers(text, tokens)
    ensures Render(Ansi, Parsed(tokens, text), counters).0 == text
  {
    AnsiWalkCopies(text, tokens, counters, |tokens|);
    assert tokens[..|tokens|] == tokens;
    RenderText(Ansi, Parsed(tokens, text), counters);
    DecorationShapes(Ansi, Paragraph);
    var doc := Mapping(Ansi, Paragraph);
    Sandwich(text, WalkOut(Ansi, text, tokens, counters), OffsetBefore(tokens, |tokens|), doc[2], doc[3]);
  }

  /** The text is its prefix up to `offset` followed by the rest, between two empty strings. */
  lemma Sandwich(text: string, prefix: string, offset: nat, open: string, close: string)
    requires offset <= |text| && prefix == text[..offset] && open == [] && close == []
    ensures open + prefix + Slice(text, offset, |text|) + close == text
  {
    assert text == text[..offset] + text[offset..];
  }

  /** Concatenation regroups: the loop's output, made of up to four pieces, sits between the
      document open string and the rest of the text. */
  lemma Regroup(open: string, a: string, b: string, c: string, d: string, rest: string, close: string)
    ensures open + (a + b + c + d) + rest + close == open + a + b + c + d + rest + close
    ensures open + (a + b) + c + close == open + a + b + c + close
  {
  }

  /** A single token: the text in front of its marker, the decoration its counter selects, and the
      text behind the marker; its counter flips. */
  lemma RenderOne(format: Format, text: string, t: TokenValue, counters: Counters)
    requires ValidCounters(counters) && t.index + |Marking(t.kind)| <= |text|
    ensures var k := t.kind;
      Render(format, Parsed([t], text), counters) ==
        (Mapping(format, Paragraph)[2] + text[..t.index] + Mapping(format, k)[counters[k]]
           + text[t.index + |Marking(k)|..] + Mapping(format, Paragraph)[3],
         counters[k := Toggle(counters[k])])
  {
    var tokens := [t];
    WalkStep(format, text, tokens, counters, 0);
    assert tokens[..1] == tokens;
    assert |tokens[..0]| == 0;
    assert WalkOut(format, text, tokens[..0], counters) == [];
    assert CountersAfter(tokens[..0], counters) == counters;
    assert WalkOut(format, text, tokens, counters) == text[..t.index] + Mapping(format, t.kind)[counters[t.kind]];
    assert Slice(text, OffsetBefore(tokens, 1), |text|) == text[t.index + |Marking(t.kind)|..];
    RenderText(format, Parsed(tokens, text), counters);
    Regroup(Mapping(format, Paragraph)[2], text[..t.index], Mapping(format, t.kind)[counters[t.kind]],
      text[t.index + |Marking(t.kind)|..], [], [], Mapping(format, Paragraph)[3]);
  }

  /** Two tokens: the output of the first decorator call, then that of the second, which sees the
      counters and the offset the first one left. */
  lemma WalkTwo(format: Format, text: string, tokens: seq<TokenValue>, counters: Counters)
    requires ValidCounters(counters) && |tokens| == 2
    ensures var c := CountersAfter(tokens[..1], counters);
      && WalkOut(format, text, tokens, counters) ==
        Decorate(format, tokens[0].kind, text, 0, tokens[0].index, counters[tokens[0].kind])
        + Decorate(format, tokens[1].kind, text, OffsetBefore(tokens, 1), tokens[1].index, c[tokens[1].kind])
      && CountersAfter(tokens, counters) == c[tokens[1].kind := Toggle(c[tokens[1].kind])]
  {
    WalkStep(format, text, tokens, counters, 0);
    WalkStep(format, text, tokens, counters, 1);
    WalkNone(format, text, tokens, counters);
    assert tokens[..2] == tokens;
    var c := CountersAfter(tokens[..1], counters);
    TwoSteps(WalkOut(format, text, tokens[..2], counters), WalkOut(format, text, tokens[..1], counters),
      WalkOut(format, text, tokens[..0], counters),
      Decorate(format, tokens[0].kind, text, 0, tokens[0].index, counters[tokens[0].kind]),
      Decorate(format, tokens[1].kind, text, OffsetBefore(tokens, 1), tokens[1].index, c[tokens[1].kind]));
  }

  /** The walk over no token writes nothing and moves no counter. */
  lemma WalkNone(format: Format, text: string, tokens: seq<TokenValue>, counters: Counters)
    requires ValidCounters(counters)
    ensures WalkOut(format, text, tokens[..0], counters) == "" && CountersAfter(tokens[..0], counters) == counters
      && OffsetBefore(tokens, 0) == 0
  {
    assert |tokens[..0]| == 0;
  }

  /** Two appends to an empty string leave the two pieces appended. */
  lemma TwoSteps(w2: string, w1: string, w0: string, d0: string, d1: string)
    requires w0 == "" && w1 == w0 + d0 && w2 == w1 + d1
    ensures w2 == d0 + d1
  {
  }

  /** Two tokens of one type, the first with its counter at 0: the text in front, the opening
      decoration, the text between the markers and the closing decoration. */
  lemma WalkPair(format: Format, text: string, tokens: seq<TokenValue>, counters: Counters)
    requires ValidCounters(counters) && |tokens| == 2
    requires var k := tokens[0].kind;
      && tokens[1].kind == k && counters[k] == 0
      && tokens[0].index + |Marking(k)| <= tokens[1].index
    ensures var k := tokens[0].kind;
      var m := |Marking(k)|;
      WalkOut(format, text, tokens, counters) ==
        Slice(text, 0, tokens[0].index) + Mapping(format, k)[0]
        + Slice(text, tokens[0].index + m, tokens[1].index) + Mapping(format, k)[1]
  {
    var k := tokens[0].kind;
    WalkTwo(format, text, tokens, counters);
    WalkStep(format, text, tokens, counters, 0);
    WalkNone(format, text, tokens, counters);
    assert CountersAfter(tokens[..1], counters)[k] == 1;
    assert OffsetBefore(tokens, 1) == tokens[0].index + |Marking(k)|;
  }

  /** Two tokens of one type flip its counter twice: every counter is back where it was. */
  lemma PairCounters(tokens: seq<TokenValue>, counters: Counters)
    requires ValidCounters(counters) && |tokens| == 2 && tokens[1].kind == tokens[0].kind
    ensures CountersAfter(tokens, counters) == counters
  {
    WalkCounters(tokens, counters, tokens[0].kind);
    WalkStep(Html, [], tokens, counters, 0);
    WalkStep(Html, [], tokens, counters, 1);
    assert tokens[..2] == tokens;
  }

  /** A pair of markers of one type, with its counter at 0, becomes its opening and closing
      decorations around the text between them, inside the document strings. */
  lemma RenderPair(format: Format, text: string, tokens: seq<TokenValue>, counters: Counters)
    requires ValidCounters(counters) && |tokens| == 2
    requires var k := tokens[0].kind;
      && tokens[1].kind == k && counters[k] == 0
      && tokens[0].index + |Marking(k)| <= tokens[1].index && tokens[1].index + |Marking(k)| <= |text|
    ensures var k := tokens[0].kind;
      var m := |Marking(k)|;
      Render(format, Parsed(tokens, text), counters) ==
        (Mapping(format, Paragraph)[2] + text[..tokens[0].index] + Mapping(format, k)[0]
           + text[tokens[0].index + m..tokens[1].index] + Mapping(format, k)[1]
           + text[tokens[1].index + m..] + Mapping(format, Paragraph)[3],
         counters)
  {
    var k := tokens[0].kind;
    var m := |Marking(k)|;
    var i0, i1 := tokens[0].index, tokens[1].index;
    RenderPairSlices(format, text, tokens, counters);
    PairSlices(text, i0, i1, m);
    Assemble(Render(format, Parsed(tokens, text), counters), counters, Mapping(format, Paragraph)[2],
      Mapping(format, Paragraph)[3], Slice(text, 0, i0), Mapping(format, k)[0], Slice(text, i0 + m, i1),
      Mapping(format, k)[1], Slice(text, i1 + m, |text|), text[..i0], text[i0 + m..i1], text[i1 + m..]);
  }

  /** The rendering of a pair of markers, read off the walk over them. */
  lemma RenderPairSlices(format: Format, text: string, tokens: seq<TokenValue>, counters: Counters)
    requires ValidCounters(counters) && |tokens| == 2
    requires var k := tokens[0].kind;
      && tokens[1].kind == k && counters[k] == 0
      && tokens[0].index + |Marking(k)| <= tokens[1].index
    ensures var k := tokens[0].kind;
      var m := |Marking(k)|;
      Render(format, Parsed(tokens, text), counters) ==
        (Mapping(format, Paragraph)[2]
           + (Slice(text, 0, tokens[0].index) + Mapping(format, k)[0]
              + Slice(text, tokens[0].index + m, tokens[1].index) + Mapping(format, k)[1])
           + Slice(text, tokens[1].index + m, |text|) + Mapping(format, Paragraph)[3],
         counters)
  {
    var m := |Marking(tokens[0].kind)|;
    WalkPair(format, text, tokens, counters);
    PairCounters(tokens, counters);
    assert OffsetBefore(tokens, |tokens|) == tokens[1].index + m;
  }

  /** The slices a pair of markers cuts the text into. */
  lemma PairSlices(text: string, i: nat, j: nat, m: nat)
    requires i + m <= j && j + m <= |text|
    ensures Slice(text, 0, i) == text[..i] && Slice(text, i + m, j) == text[i + m..j]
    ensures Slice(text, j + m, |text|) == text[j + m..]
  {
  }

  /** Putting a rendering back together from its pieces. */
  lemma Assemble(r: (string, Counters), counters: Counters, docOpen: string, docClose: string,
                 a: string, b: string, c: string, d: string, e: string, a': string, c': string, e': string)
    requires r == (docOpen + (a + b + c + d) + e + docClose, counters) && a == a' && c == c' && e == e'
    ensures r == (docOpen + a' + b + c' + d + e' + docClose, counters)
  {
    Regroup(docOpen, a, b, c, d, e, docClose);
  }

  // ---------------------------------------------------------------- examples

  /** `_italic_`, with any text in place of `italic`, and its two italic tokens renders in HTML as
      `<p><i>italic</i></p>`; the italic counter is back at 0. */
  lemma HtmlItalicExample(body: string, tokens: seq<TokenValue>)
    requires tokens == [TokenValue(0, Italic, [Left]), TokenValue(|body| + 1, Italic, [Right])]
    ensures Render(Html, Parsed(tokens, "_" + body + "_"), Zeros()) == ("<p><i>" + body + "</i></p>", Zeros())
  {
    var text := "_" + body + "_";
    RenderPair(Html, text, tokens, Zeros());
    assert |"_"| == 1 && |Marking(Italic)| == 1 && Zeros()[Italic] == 0;
    WrappedParts(text, "_", body, "_");
    ItalicJoin(body);
  }

  /** A text `body` between two markers of a paired type, parsed to the two tokens on those
      markers, compiles in HTML to the type's decorations around `body` inside one paragraph, and
      the counters are back at 0. */
  lemma CompilePair(kind: Kind, body: string, src: string, a: TokenValue, b: TokenValue)
    requires kind != Paragraph && src == Marking(kind) + body + Marking(kind)
    requires a.kind == kind && b.kind == kind && a.index == 0 && b.index == |Marking(kind)| + |body|
    requires ParseSpec(src) == Ok(Parsed([a, b], src))
    ensures CompileSpec(Html, Zeros(), src)
      == Ok(("<p>" + Mapping(Html, kind)[0] + body + Mapping(Html, kind)[1] + "</p>", Zeros()))
  {
    CompileOk(Html, Zeros(), src);
    RenderWrapped(kind, body, src, a, b);
  }

  /** The rendering behind `CompilePair`: the text in front of the opener and behind the closer is
      empty, so only the decorations and `body` remain. */
  lemma RenderWrapped(kind: Kind, body: string, src: string, a: TokenValue, b: TokenValue)
    requires kind != Paragraph && src == Marking(kind) + body + Marking(kind)
    requires a.kind == kind && b.kind == kind && a.index == 0 && b.index == |Marking(kind)| + |body|
    ensures Render(Html, Parsed([a, b], src), Zeros())
      == ("<p>" + Mapping(Html, kind)[0] + body + Mapping(Html, kind)[1] + "</p>", Zeros())
  {
    var m := Marking(kind);
    RenderPair(Html, src, [a, b], Zeros());
    WrappedParts(src, m, body, m);
    DecorationShapes(Html, Paragraph);
    PairJoin("<p>", Mapping(Html, kind)[0], body, Mapping(Html, kind)[1], "</p>");
  }

  /** The decorations around a body, with the empty ends dropped. */
  lemma PairJoin(docOpen: string, open: string, body: string, close: string, docClose: string)
    ensures docOpen + [] + open + body + close + [] + docClose == docOpen + open + body + close + docClose
  {
  }

  /** The italic test of the compiler: `_italic_` compiles in HTML to `<p><i>italic</i></p>`, and
      the counters are back at 0. */
  lemma CompileItalicExample(src: string)
    requires src == "_italic_"
    ensures CompileSpec(Html, Zeros(), src) == Ok(("<p><i>italic</i></p>", Zeros()))
  {
    var body := "italic";
    ParseItalicExample(src);
    ItalicParts(src, body);
    CompilePair(Italic, body, src, TokenValue(0, Italic, [Left]), TokenValue(7, Italic, [Right]));
  }

  /** The bold test of the compiler: `**bold**` compiles in HTML to `<p><strong>bold</strong></p>`. */
  lemma CompileBoldExample(src: string)
    requires src == "**bold**"
    ensures CompileSpec(Html, Zeros(), src) == Ok(("<p><strong>bold</strong></p>", Zeros()))
  {
    var body := "bold";
    ParseBoldExample(src);
    BoldParts(src, body);
    CompilePair(Bold, body, src, TokenValue(0, Bold, [Left]), TokenValue(6, Bold, [Right]));
  }

  /** The monospaced test of the compiler: `` `monospaced` `` compiles in HTML to
      `<p><tt>monospaced</tt></p>`. */
  lemma CompileMonospacedExample(src: string)
    requires src == "`monospaced`"
    ensures CompileSpec(Html, Zeros(), src) == Ok(("<p><tt>monospaced</tt></p>", Zeros()))
  {
    var body := "monospaced";
    ParseMonospacedExample(src);
    MonospacedParts(src, body);
    CompilePair(Monospaced, body, src, TokenValue(0, Monospaced, [Left]), TokenValue(11, Monospaced, [Right]));
  }

  /** The preformatted test of the compiler: ```` ```preformatted``` ```` compiles in HTML to
      `<p><pre>preformatted</pre></p>`. */
  lemma CompilePreformattedExample(src: string)
    requires src == "```preformatted```"
    ensures CompileSpec(Html, Zeros(), src) == Ok(("<p><pre>preformatted</pre></p>", Zeros()))
  {
    var body := "preformatted";
    ParsePreformattedExample(src);
    PreformattedParts(src, body);
    CompilePair(Preformatted, body, src, TokenValue(0, Preformatted, []), TokenValue(15, Preformatted, []));
  }

  /** The unpaired texts of the compiler tests: each call throws, reporting its one token unpaired,
      both as intended and as written. */
  lemma CompileUnpairedExample(src: string, kind: Kind, at: nat)
    requires || (src == "**bold" && kind == Bold && at == 0)
             || (src == "bold**" && kind == Bold && at == 4)
             || (src == "_italic" && kind == Italic && at == 0)
             || (src == "italic_" && kind == Italic && at == 6)
             || (src == "`monospaced" && kind == Monospaced && at == 0)
             || (src == "monospaced`" && kind == Monospaced && at == 10)
             || (src == "```preformatted" && kind == Preformatted && at == 0)
    ensures CompileSpec(Html, Zeros(), src) == Err(ParseFailed(Unpaired(kind, at)))
    ensures CompileAsWritten(src) == Err(ParseFailed(Unpaired(kind, at)))
  {
    match kind
    case Bold => ParseUnpairedBoldExample(src, at);
    case Italic => ParseUnpairedItalicExample(src, at);
    case Monospaced => ParseUnpairedMonospacedExample(src, at);
    case Preformatted => ParseUnpairedPreformattedExample(src);
  }

  /** The paragraph test of the compiler: `paragraph1\n\nparagraph2` compiles in HTML to
      `<p>paragraph1</p><p>paragraph2</p>`; only the paragraph counter has moved. */
  lemma CompileParagraphExample(src: string)
    requires src == "paragraph1\n\nparagraph2"
    ensures CompileSpec(Html, Zeros(), src)
      == Ok(("<p>paragraph1</p><p>paragraph2</p>", Zeros()[Paragraph := 1]))
  {
    var a, b := "paragraph1", "paragraph2";
    var t := TokenValue(10, Paragraph, []);
    ParseTwoParagraphsExample(src);
    CompileOk(Html, Zeros(), src);
    ParagraphParts(src, a, b);
    HtmlParagraphExample(a, b, t);
  }

  /** The text of the paragraph test cut at its paragraph marker, and its HTML output put together. */
  lemma ParagraphParts(src: string, a: string, b: string)
    requires src == "paragraph1\n\nparagraph2" && a == "paragraph1" && b == "paragraph2"
    ensures src == a + "\n\n" + b && |a| == 10
    ensures "<p>" + a + "</p><p>" + b + "</p>" == "<p>paragraph1</p><p>paragraph2</p>"
  {
  }

  /** The nested text of the compiler tests: the call throws, reporting the italic pair nested in
      the bold pair, at 9 once corrected. The check as written reports the italic closer's
      position 1 inside the slice between the bold markers. */
  lemma CompileNestedExample(src: string)
    requires src == "**_nested_**"
    ensures CompileSpec(Html, Zeros(), src) == Err(ParseFailed(Nested(Italic, 9)))
    ensures CompileAsWritten(src) == Err(ParseFailed(Nested(Italic, 9)))
    ensures Tokens(src) ==
      [TokenValue(0, Bold, [Left]), TokenValue(2, Italic, [Left]), TokenValue(9, Italic, [Right]), TokenValue(10, Bold, [Right])]
    ensures NestedErrorAsWritten(Tokens(src)[1..3]) == Some(Nested(Italic, 1))
  {
    ParseInnerExample(src);
    TokensInnerExample(src);
    InnerNested(TokenValue(2, Italic, [Left]), TokenValue(9, Italic, [Right]));
  }

  /** The text of the italic test cut at its markers, and its HTML output put together. */
  lemma ItalicParts(src: string, body: string)
    requires src == "_italic_" && body == "italic"
    ensures src == Marking(Italic) + body + Marking(Italic)
    ensures "<p>" + Mapping(Html, Italic)[0] + body + Mapping(Html, Italic)[1] + "</p>" == "<p><i>italic</i></p>"
  {
    assert Marking(Italic) == "_";
  }

  /** The text of the bold test cut at its markers, and its HTML output put together. */
  lemma BoldParts(src: string, body: string)
    requires src == "**bold**" && body == "bold"
    ensures src == Marking(Bold) + body + Marking(Bold)
    ensures "<p>" + Mapping(Html, Bold)[0] + body + Mapping(Html, Bold)[1] + "</p>" == "<p><strong>bold</strong></p>"
  {
    assert Marking(Bold) == "**";
  }

  /** The text of the monospaced test cut at its markers, and its HTML output put together. */
  lemma MonospacedParts(src: string, body: string)
    requires src == "`monospaced`" && body == "monospaced"
    ensures src == Marking(Monospaced) + body + Marking(Monospaced)
    ensures "<p>" + Mapping(Html, Monospaced)[0] + body + Mapping(Html, Monospaced)[1] + "</p>" == "<p><tt>monospaced</tt></p>"
  {
    assert Marking(Monospaced) == "`";
  }

  /** The text of the preformatted test cut at its markers, and its HTML output put together. */
  lemma PreformattedParts(src: string, body: string)
    requires src == "```preformatted```" && body == "preformatted"
    ensures src == Marking(Preformatted) + body + Marking(Preformatted)
    ensures "<p>" + Mapping(Html, Preformatted)[0] + body + Mapping(Html, Preformatted)[1] + "</p>" == "<p><pre>preformatted</pre></p>"
  {
    assert Marking(Preformatted) == "```";
  }

  /** A text made of three parts gives them back by slicing. */
  lemma WrappedParts(text: string, left: string, body: string, right: string)
    requires text == left + body + right
    ensures text[..0] == [] && text[..|left|] == left
    ensures text[|left|..|left| + |body|] == body
    ensures text[|left| + |body| + |right|..] == [] && text[|left| + |body|..] == right
  {
    assert text[..|left|] == left;
    assert text[|left|..|left| + |body|] == body;
    assert text[|left| + |body|..] == right;
  }

  /** The HTML decorations around an italic body, with the empty ends dropped. */
  lemma ItalicJoin(body: string)
    ensures "<p>" + [] + "<i>" + body + "</i>" + [] + "</p>" == "<p><i>" + body + "</i></p>"
  {
  }

  /** Two paragraphs `a` and `b` separated by a paragraph token render in HTML as
      `<p>a</p><p>b</p>`; only the paragraph counter has moved. */
  lemma HtmlParagraphExample(a: string, b: string, t: TokenValue)
    requires t == TokenValue(|a|, Paragraph, [])
    ensures Render(Html, Parsed([t], a + "\n\n" + b), Zeros())
      == ("<p>" + a + "</p><p>" + b + "</p>", Zeros()[Paragraph := 1])
  {
    var text := a + "\n\n" + b;
    assert Zeros()[Paragraph] == 0 && |Marking(Paragraph)| == 2;
    RenderOne(Html, text, t, Zeros());
    WrappedParts(text, a, "\n\n", b);
  }

  /** The empty text compiles to `<p></p>` in HTML and leaves the counters alone; as written, the
      same call throws. */
  lemma CompileEmptyExample(src: string)
    requires src == ""
    ensures CompileSpec(Html, Zeros(), src) == Ok(("<p></p>", Zeros()))
    ensures CompileAsWritten(src) == Err(TextUndefined)
  {
    ParseEmpty(src);
    CompileOk(Html, Zeros(), src);
    RenderEmpty(Html, Parsed([], src), Zeros());
    HtmlDocumentEmpty(src);
  }

  /** The HTML document strings around the empty text. */
  lemma HtmlDocumentEmpty(src: string)
    requires src == ""
    ensures Mapping(Html, Paragraph)[2] + src + Mapping(Html, Paragraph)[3] == "<p></p>"
  {
    DecorationShapes(Html, Paragraph);
  }

  /** A text without tokens renders as itself between the document strings, counters unchanged. */
  lemma RenderEmpty(format: Format, parsed: Parsed, counters: Counters)
    requires ValidCounters(counters) && parsed.tokens == []
    ensures Render(format, parsed, counters)
      == (Mapping(format, Paragraph)[2] + parsed.processed + Mapping(format, Paragraph)[3], counters)
  {
    RenderText(format, parsed, counters);
    assert WalkOut(format, parsed.processed, [], counters) == [];
    assert Slice(parsed.processed, 0, |parsed.processed|) == parsed.processed;
    var doc := Mapping(format, Paragraph);
    assert doc[2] + [] + parsed.processed == doc[2] + parsed.processed;
  }
}
