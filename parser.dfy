/** lib/core/parser.js, lines 47-160: the three resolver passes, `preProcess` and `parse`. */
module Parser {
  import opened Results
  import opened Utils
  import opened Constants
  import opened Tokenizer

  // -------------------------------------------------------------- preProcess

  /** The number of `'\n'` characters `s` starts with. */
  function LeadingNewlines(s: string): (n: nat)
    ensures n <= |s|
    ensures forall i :: 0 <= i < n ==> s[i] == '\n'
    ensures n < |s| ==> s[n] != '\n'
    decreases |s|
  {
    if s != [] && s[0] == '\n' then 1 + LeadingNewlines(s[1..]) else 0
  }

  /** `preProcess`: `src.replace(/\n{3,}/g, '\n\n')`. Scanning from the left, a run of three or more
      newlines is replaced by two; shorter runs and every other character are kept. Nothing is trimmed. */
  function PreProcess(s: string): (r: string)
    ensures |r| <= |s|
    ensures s != [] ==> r != [] && r[0] == s[0]
    decreases |s|
  {
    if s == [] then []
    else
      var n := LeadingNewlines(s);
      if n >= 3 then "\n\n" + PreProcess(s[n..])
      else if n > 0 then s[..n] + PreProcess(s[n..])
      else [s[0]] + PreProcess(s[1..])
  }

  /** No three consecutive newlines. */
  predicate NoTriple(s: string) {
    forall i :: 0 <= i && i + 2 < |s| ==> !(s[i] == '\n' && s[i + 1] == '\n' && s[i + 2] == '\n')
  }

  /** Putting at most two newlines in front of a text that does not start with one, or one other
      character in front of any text, creates no triple. */
  lemma NoTriplePrefix(p: string, t: string)
    requires NoTriple(t)
    requires || (|p| <= 2 && (forall i :: 0 <= i < |p| ==> p[i] == '\n') && (t != [] ==> t[0] != '\n'))
             || (|p| == 1 && p[0] != '\n')
    ensures NoTriple(p + t)
  {
    var s := p + t;
    forall i | 0 <= i && i + 2 < |s| ensures !(s[i] == '\n' && s[i + 1] == '\n' && s[i + 2] == '\n') {
      if i >= |p| {
        assert s[i] == t[i - |p|] && s[i + 1] == t[i + 1 - |p|] && s[i + 2] == t[i + 2 - |p|];
      }
    }
  }

  /** After `preProcess` no run of newlines is longer than two. */
  lemma {:induction false} PreProcessNoTriple(s: string)
    ensures NoTriple(PreProcess(s))
    decreases |s|
  {
    if s != [] {
      var n := LeadingNewlines(s);
      if n > 0 {
        PreProcessNoTriple(s[n..]);
        var p := if n >= 3 then "\n\n" else s[..n];
        NoTriplePrefix(p, PreProcess(s[n..]));
      } else {
        PreProcessNoTriple(s[1..]);
        NoTriplePrefix([s[0]], PreProcess(s[1..]));
      }
    }
  }

  lemma NoTripleSuffix(s: string, k: nat)
    requires NoTriple(s) && k <= |s|
    ensures NoTriple(s[k..])
  {
    var t := s[k..];
    forall i | 0 <= i && i + 2 < |t| ensures !(t[i] == '\n' && t[i + 1] == '\n' && t[i + 2] == '\n') {
      assert t[i] == s[i + k] && t[i + 1] == s[i + 1 + k] && t[i + 2] == s[i + 2 + k];
    }
  }

  /** A text with no triple newline is left as it is. */
  lemma {:induction false} PreProcessIdentity(s: string)
    requires NoTriple(s)
    ensures PreProcess(s) == s
    decreases |s|
  {
    if s != [] {
      var n := LeadingNewlines(s);
      if n > 0 {
        assert n < 3 by {
          if |s| >= 3 {
            assert !(s[0] == '\n' && s[1] == '\n' && s[2] == '\n');
          }
        }
        NoTripleSuffix(s, n);
        PreProcessIdentity(s[n..]);
        Rejoin(s, n, PreProcess(s), PreProcess(s[n..]));
      } else {
        NoTripleSuffix(s, 1);
        PreProcessIdentity(s[1..]);
        Rejoin(s, 1, PreProcess(s), PreProcess(s[1..]));
      }
    }
  }

  /** The first `n` characters in front of the rest are the whole text. */
  lemma Rejoin(s: string, n: nat, r: string, rest: string)
    requires 0 < n <= |s| && rest == s[n..] && (r == s[..n] + rest || (n == 1 && r == [s[0]] + rest))
    ensures r == s
  {
    assert s == s[..n] + s[n..];
  }

  /** Applying `preProcess` twice changes nothing more. */
  lemma PreProcessIdempotent(s: string)
    ensures PreProcess(PreProcess(s)) == PreProcess(s)
  {
    PreProcessNoTriple(s);
    PreProcessIdentity(PreProcess(s));
  }

  /** The first half of the sanitization test: three newlines become two. */
  lemma PreProcessExample()
    ensures PreProcess("bar\n\n\n baz") == "bar\n\n baz"
  {
    var s := "bar\n\n\n baz";
    assert s[3..] == "\n\n\n baz";
    assert LeadingNewlines(" baz") == 0;
    assert LeadingNewlines("\n baz") == 1;
    assert LeadingNewlines("\n\n baz") == 2;
    assert LeadingNewlines("\n\n\n baz") == 3;
    assert s[3..][3..] == " baz";
  }

  /** The second half of the sanitization test: the spaces around the text are kept, since nothing
      trims them. */
  lemma PreProcessSpacesExample(s: string)
    requires s == "  foo "
    ensures PreProcess(s) == "  foo "
  {
    PreProcessIdentity(s);
  }

  // ------------------------------------------------------------- passes: common

  /** The errors the passes throw: a token left without its partner, or a pair of delimiters of one
      type inside a pair of another. `at` is the index the message reports. */
  datatype ParseError = Unpaired(kind: Kind, at: nat) | Nested(kind: Kind, at: nat)

  /** A run of tokens the passes resolve on its own. */
  type Scope = seq<TokenValue>

  /** What a pass yields: the tokens it pushed to the result list, in push order, and the scopes it
      hands on to the next pass. */
  datatype Pass = Pass(pushed: seq<TokenValue>, scopes: seq<Scope>)

  /** Nothing pushed, nothing handed on. */
  const Nothing: Result<Pass, ParseError> := Ok(Pass([], []))

  /** Running one piece of a pass after another: the first error wins; otherwise the pushes and the
      scopes are joined in order. */
  function Then(a: Result<Pass, ParseError>, b: Result<Pass, ParseError>): Result<Pass, ParseError> {
    match a
    case Err(e) => Err(e)
    case Ok(p) =>
      match b
      case Err(e) => Err(e)
      case Ok(q) => Ok(Join(p, q))
  }

  /** Two pieces of a pass that cannot fail, one after the other. */
  function Join(p: Pass, q: Pass): Pass {
    Pass(p.pushed + q.pushed, p.scopes + q.scopes)
  }

  lemma NothingThen(b: Result<Pass, ParseError>)
    ensures Then(Nothing, b) == b
  {
    if b.Ok? {
      assert [] + b.value.pushed == b.value.pushed && [] + b.value.scopes == b.value.scopes;
    }
  }

  lemma ThenNothing(a: Result<Pass, ParseError>)
    ensures Then(a, Nothing) == a
  {
    if a.Ok? {
      assert a.value.pushed + [] == a.value.pushed && a.value.scopes + [] == a.value.scopes;
    }
  }

  lemma ThenAssoc(a: Result<Pass, ParseError>, b: Result<Pass, ParseError>, c: Result<Pass, ParseError>)
    ensures Then(Then(a, b), c) == Then(a, Then(b, c))
  {
    if a.Ok? && b.Ok? && c.Ok? {
      assert a.value.pushed + b.value.pushed + c.value.pushed == a.value.pushed + (b.value.pushed + c.value.pushed);
      assert a.value.scopes + b.value.scopes + c.value.scopes == a.value.scopes + (b.value.scopes + c.value.scopes);
    }
  }

  /** The tokens of `s` of type `kind`, in order. */
  function OfKind(s: Scope, kind: Kind): (r: Scope)
    ensures |r| <= |s|
    decreases |s|
  {
    if s == [] then [] else (if s[0].kind == kind then [s[0]] else []) + OfKind(s[1..], kind)
  }

  lemma {:induction false} OfKindAppend(a: Scope, b: Scope, kind: Kind)
    ensures OfKind(a + b, kind) == OfKind(a, kind) + OfKind(b, kind)
    decreases |a|
  {
    if a == [] {
      assert a + b == b;
    } else {
      OfKindAppend(a[1..], b, kind);
      assert (a + b)[1..] == a[1..] + b;
      assert (a + b)[0] == a[0];
      assert OfKind(a + b, kind) == (if a[0].kind == kind then [a[0]] else []) + OfKind(a[1..] + b, kind);
    }
  }

  /** Tokens of other types in front of position `j` add nothing. */
  lemma {:induction false} OfKindSkip(s: Scope, i: nat, j: nat, kind: Kind)
    requires i <= j <= |s| && forall k :: i <= k < j ==> s[k].kind != kind
    ensures OfKind(s[i..], kind) == OfKind(s[j..], kind)
    decreases j - i
  {
    if i < j {
      assert s[i..][1..] == s[i + 1..];
      OfKindSkip(s, i + 1, j, kind);
    }
  }

  /** From position `i` on, the first token of type `kind` is the one at `j`. */
  lemma OfKindNext(s: Scope, i: nat, j: nat, kind: Kind)
    requires i <= j < |s| && s[j].kind == kind && forall k :: i <= k < j ==> s[k].kind != kind
    ensures OfKind(s[i..], kind) == [s[j]] + OfKind(s[j + 1..], kind)
  {
    OfKindSkip(s, i, j, kind);
    assert s[j..][1..] == s[j + 1..];
  }

  /** The scopes one after the other. */
  function Flatten(scopes: seq<Scope>): Scope
    decreases |scopes|
  {
    if scopes == [] then [] else Flatten(scopes[..|scopes| - 1]) + scopes[|scopes| - 1]
  }

  /** No token of type `kind` in any of `scopes`. */
  predicate Without(scopes: seq<Scope>, kind: Kind) {
    forall j, t :: 0 <= j < |scopes| && t in scopes[j] ==> t.kind != kind
  }

  lemma WithoutJoin(a: seq<Scope>, b: seq<Scope>, kind: Kind)
    requires Without(a, kind) && Without(b, kind)
    ensures Without(a + b, kind)
  {
    forall j, t | 0 <= j < |a + b| && t in (a + b)[j] ensures t.kind != kind {
      if j >= |a| {
        assert (a + b)[j] == b[j - |a|];
      }
    }
  }

  // ---------------------------------------------------------------- evalPref

  /** `prefStrat`. */
  predicate IsPref(t: TokenValue) {
    t.kind == Preformatted
  }

  /** One cut of `evalPrefScope`: the two preformatted tokens pushed, the part in front of the
      block, and the slice behind it (`null` when the scope holds no preformatted token). */
  datatype PrefCut = PrefCut(pushed: seq<TokenValue>, part: Scope, slice: Option<Scope>)

  /** `evalPrefScope` on values: the first preformatted token opens a block, the next one closes it;
      an opener without a closer is an error reported at the opener's index. */
  /** The position of the first preformatted token of `s` at or after `from`: the value `find` with
      `prefStrat` computes, written without the function argument. */
  function NextPref(s: Scope, from: nat): (r: Option<nat>)
    ensures r.Some? ==> from <= r.value < |s| && s[r.value].kind == Preformatted
    decreases |s| - from
  {
    if from >= |s| then None else if s[from].kind == Preformatted then Some(from) else NextPref(s, from + 1)
  }

  /** No preformatted token is skipped. */
  lemma {:induction false} NextPrefSkips(s: Scope, from: nat)
    ensures NextPref(s, from).None? ==> forall i :: from <= i < |s| ==> s[i].kind != Preformatted
    ensures NextPref(s, from).Some? ==> forall i :: from <= i < NextPref(s, from).value ==> s[i].kind != Preformatted
    decreases |s| - from
  {
    if from < |s| && s[from].kind != Preformatted {
      NextPrefSkips(s, from + 1);
    }
  }

  /** `find(scope, prefStrat, from)` finds what `NextPref` names. */
  lemma {:induction false} FindPref(s: Scope, from: nat)
    ensures Find(s, IsPref, from).NotFound? <==> NextPref(s, from).None?
    ensures Find(s, IsPref, from).Found? ==> NextPref(s, from) == Some(Find(s, IsPref, from).at)
    decreases |s| - from
  {
    if from < |s| && !IsPref(s[from]) {
      FindPref(s, from + 1);
    }
  }

  function PrefScope(scope: Scope): (r: Result<PrefCut, ParseError>)
    ensures r.Ok? && r.value.slice.Some? ==> |r.value.slice.value| < |scope|
  {
    match NextPref(scope, 0)
    case None => Ok(PrefCut([], scope, None))
    case Some(o) =>
      match NextPref(scope, o + 1)
      case None => Err(Unpaired(Preformatted, scope[o].index))
      case Some(c) => Ok(PrefCut([scope[o], scope[c]], scope[..o], Some(scope[c + 1..])))
  }

  /** What is left of the `do ... while (scope)` loop once `scope` holds `next`. */
  function PrefRest(next: Option<Scope>): Result<Pass, ParseError>
    decreases if next.Some? then |next.value| + 1 else 0
  {
    match next
    case None => Nothing
    case Some(scope) =>
      match PrefScope(scope)
      case Err(e) => Err(e)
      case Ok(cut) => Then(Ok(Pass(cut.pushed, [cut.part])), PrefRest(cut.slice))
  }

  /** `evalPref` on the scopes `scopes`: every non-empty scope is cut until no block is left. */
  function PrefPass(scopes: seq<Scope>): Result<Pass, ParseError>
    decreases |scopes|
  {
    if scopes == [] then Nothing
    else
      var n := |scopes| - 1;
      Then(PrefPass(scopes[..n]), if scopes[n] == [] then Nothing else PrefRest(Some(scopes[n])))
  }

  /** `evalPrefScope(acc, scope)`: pushes the two tokens of the first block and returns the part in
      front of it and the slice behind it. */
  method EvalPrefScope(acc: SortedList<TokenValue>, scope: Scope) returns (r: Result<(Scope, Option<Scope>), ParseError>)
    requires acc.key == ValueIndex && acc.Valid()
    modifies acc
    ensures acc.key == ValueIndex && acc.Valid()
    ensures PrefScope(scope).Err? ==> r == Err(PrefScope(scope).error)
    ensures PrefScope(scope).Ok? ==>
      var cut := PrefScope(scope).value;
      r == Ok((cut.part, cut.slice)) && acc.items == InsertAll(old(acc.items), cut.pushed, ValueIndex)
  {
    var first := Find(scope, IsPref, 0);
    FindPref(scope, 0);
    if first.NotFound? {
      assert PrefScope(scope) == Ok(PrefCut([], scope, None));
      return Ok((scope, None));
    }
    var second := Find(scope, IsPref, first.at + 1);
    FindPref(scope, first.at + 1);
    if second.NotFound? {
      assert PrefScope(scope) == Err(Unpaired(Preformatted, first.item.index));
      return Err(Unpaired(Preformatted, first.item.index));
    }
    var _ := acc.Push([first.item, second.item]);
    var parts := SplitArray(scope, [first.at, second.at]);
    PrefScopeParts(scope, first.at, second.at, parts);
    return Ok((parts[0], Some(parts[2])));
  }

  /** `evalPref(acc, scopes)`. */
  method EvalPref(acc: SortedList<TokenValue>, scopes: seq<Scope>) returns (r: Result<seq<Scope>, ParseError>)
    requires acc.key == ValueIndex && acc.Valid()
    modifies acc
    ensures acc.key == ValueIndex && acc.Valid()
    ensures PrefPass(scopes).Err? ==> r == Err(PrefPass(scopes).error)
    ensures PrefPass(scopes).Ok? ==>
      r == Ok(PrefPass(scopes).value.scopes) && acc.items == InsertAll(old(acc.items), PrefPass(scopes).value.pushed, ValueIndex)
  {
    var res: seq<Scope> := [];
    ghost var pushed: seq<TokenValue> := [];
    for n := 0 to |scopes|
      invariant acc.key == ValueIndex && acc.Valid()
      invariant PrefPass(scopes[..n]) == Ok(Pass(pushed, res))
      invariant acc.items == InsertAll(old(acc.items), pushed, ValueIndex)
    {
      assert scopes[..n + 1][..n] == scopes[..n];
      if scopes[n] == [] {
        ThenNothing(PrefPass(scopes[..n]));
        continue;
      }
      var next: Option<Scope> := Some(scopes[n]);
      while next.Some?
        invariant acc.key == ValueIndex && acc.Valid()
        invariant Then(Ok(Pass(pushed, res)), PrefRest(next)) == PrefPass(scopes[..n + 1])
        invariant acc.items == InsertAll(old(acc.items), pushed, ValueIndex)
        decreases if next.Some? then |next.value| + 1 else 0
      {
        var cut := EvalPrefScope(acc, next.value);
        if cut.Err? {
          PrefPassErr(scopes, n + 1);
          return Err(cut.error);
        }
        ghost var c := PrefScope(next.value).value;
        ThenAssoc(Ok(Pass(pushed, res)), Ok(Pass(c.pushed, [c.part])), PrefRest(c.slice));
        InsertAllAppend(old(acc.items), pushed, c.pushed, ValueIndex);
        pushed := pushed + c.pushed;
        res := res + [cut.value.0];
        next := cut.value.1;
      }
      ThenNothing(Ok(Pass(pushed, res)));
    }
    assert scopes[..|scopes|] == scopes;
    return Ok(res);
  }

  /** An error in the first scopes is the error of the whole pass. */
  lemma {:induction false} PrefPassErr(scopes: seq<Scope>, m: nat)
    requires m <= |scopes| && PrefPass(scopes[..m]).Err?
    ensures PrefPass(scopes) == PrefPass(scopes[..m])
    decreases |scopes| - m
  {
    if m < |scopes| {
      assert scopes[..m + 1][..m] == scopes[..m];
      PrefPassErr(scopes, m + 1);
    } else {
      assert scopes[..m] == scopes;
    }
  }

  /** A scope without preformatted tokens is handed on whole. */
  lemma PrefRestNone(scope: Scope)
    requires NextPref(scope, 0).None?
    ensures PrefRest(Some(scope)) == Ok(Pass([], [scope]))
    ensures OfKind(scope, Preformatted) == []
  {
    ThenNothing(Ok(Pass([], [scope])));
    NextPrefSkips(scope, 0);
    assert scope[0..] == scope;
    OfKindSkip(scope, 0, |scope|, Preformatted);
  }

  /** A scope with one preformatted token, at `o`, fails at that token. */
  lemma PrefRestLone(scope: Scope, o: nat)
    requires NextPref(scope, 0) == Some(o) && NextPref(scope, o + 1).None?
    ensures PrefRest(Some(scope)) == Err(Unpaired(Preformatted, scope[o].index))
    ensures OfKind(scope, Preformatted) == [scope[o]]
  {
    NextPrefSkips(scope, 0);
    NextPrefSkips(scope, o + 1);
    assert scope[0..] == scope;
    OfKindNext(scope, 0, o, Preformatted);
    OfKindSkip(scope, o + 1, |scope|, Preformatted);
  }

  /** A scope whose first two preformatted tokens are at `o` and `c` pushes them, hands on the part
      in front of `o`, which holds no preformatted token, and goes on with the slice behind `c`. */
  lemma PrefRestPair(scope: Scope, o: nat, c: nat)
    requires NextPref(scope, 0) == Some(o) && NextPref(scope, o + 1) == Some(c)
    ensures PrefRest(Some(scope)) == Then(Ok(Pass([scope[o], scope[c]], [scope[..o]])), PrefRest(Some(scope[c + 1..])))
    ensures forall t :: t in scope[..o] ==> t.kind != Preformatted
    ensures OfKind(scope, Preformatted) == [scope[o], scope[c]] + OfKind(scope[c + 1..], Preformatted)
  {
    PrefScopePair(scope, o, c);
    NextPrefSkips(scope, 0);
    NextPrefSkips(scope, o + 1);
    PrefPairKinds(scope, o, c);
  }

  /** The cut of a scope whose first two preformatted tokens are at `o` and `c`, read off the three
      slices `splitArray` makes at those positions. */
  lemma PrefScopeParts(scope: Scope, o: nat, c: nat, parts: seq<Scope>)
    requires NextPref(scope, 0) == Some(o) && NextPref(scope, o + 1) == Some(c)
    requires parts == Split(scope, [o, c])
    ensures |parts| == 3
    ensures PrefScope(scope) == Ok(PrefCut([scope[o], scope[c]], parts[0], Some(parts[2])))
  {
    PrefScopePair(scope, o, c);
    SplitTwo(scope, o, c);
  }

  lemma PrefScopePair(scope: Scope, o: nat, c: nat)
    requires NextPref(scope, 0) == Some(o) && NextPref(scope, o + 1) == Some(c)
    ensures PrefScope(scope) == Ok(PrefCut([scope[o], scope[c]], scope[..o], Some(scope[c + 1..])))
  {
  }

  lemma PrefPairKinds(scope: Scope, o: nat, c: nat)
    requires o < c < |scope| && scope[o].kind == Preformatted && scope[c].kind == Preformatted
    requires forall i :: 0 <= i < o ==> scope[i].kind != Preformatted
    requires forall i :: o < i < c ==> scope[i].kind != Preformatted
    ensures OfKind(scope, Preformatted) == [scope[o], scope[c]] + OfKind(scope[c + 1..], Preformatted)
  {
    OfKindNext(scope, o + 1, c, Preformatted);
    OfKindNext(scope, 0, o, Preformatted);
    assert scope[0..] == scope;
    Cons2(scope[o], scope[c], OfKind(scope[c + 1..], Preformatted), OfKind(scope[o + 1..], Preformatted), OfKind(scope, Preformatted));
  }

  lemma Cons2<T>(a: T, b: T, x: seq<T>, y: seq<T>, z: seq<T>)
    requires y == [b] + x && z == [a] + y
    ensures z == [a, b] + x
  {
  }

  /** Cutting a scope pushes exactly its preformatted tokens, in order. */
  lemma {:induction false} PrefRestPushed(scope: Scope)
    ensures PrefRest(Some(scope)).Ok? ==> PrefRest(Some(scope)).value.pushed == OfKind(scope, Preformatted)
    decreases |scope|
  {
    match NextPref(scope, 0)
    case None => PrefRestNone(scope);
    case Some(o) =>
      match NextPref(scope, o + 1)
      case None => PrefRestLone(scope, o);
      case Some(c) =>
        PrefRestPair(scope, o, c);
        PrefRestPushed(scope[c + 1..]);
  }

  /** Cutting a scope fails exactly when it holds an odd number of preformatted tokens. */
  lemma {:induction false} PrefRestOdd(scope: Scope)
    ensures PrefRest(Some(scope)).Err? <==> |OfKind(scope, Preformatted)| % 2 == 1
    decreases |scope|
  {
    match NextPref(scope, 0)
    case None => PrefRestNone(scope);
    case Some(o) =>
      match NextPref(scope, o + 1)
      case None => PrefRestLone(scope, o);
      case Some(c) =>
        PrefRestOdd(scope[c + 1..]);
        PrefRestOddPair(scope, o, c);
  }

  /** A pair in front of the rest leaves the parity of the preformatted tokens, and whether the cut
      fails, to the rest. */
  lemma PrefRestOddPair(scope: Scope, o: nat, c: nat)
    requires NextPref(scope, 0) == Some(o) && NextPref(scope, o + 1) == Some(c)
    requires PrefRest(Some(scope[c + 1..])).Err? <==> |OfKind(scope[c + 1..], Preformatted)| % 2 == 1
    ensures PrefRest(Some(scope)).Err? <==> |OfKind(scope, Preformatted)| % 2 == 1
  {
    PrefRestPair(scope, o, c);
    ParityAfterPair(PrefRest(Some(scope)), PrefRest(Some(scope[c + 1..])), Pass([scope[o], scope[c]], [scope[..o]]),
                    OfKind(scope, Preformatted), OfKind(scope[c + 1..], Preformatted), scope[o], scope[c]);
  }

  /** A piece that cannot fail in front of a rest: the whole fails with the rest, and two more
      tokens keep the parity of the rest's. */
  lemma ParityAfterPair(r: Result<Pass, ParseError>, rest: Result<Pass, ParseError>, x: Pass,
                        all: Scope, tail: Scope, a: TokenValue, b: TokenValue)
    requires r == Then(Ok(x), rest) && all == [a, b] + tail && (rest.Err? <==> |tail| % 2 == 1)
    ensures r.Err? <==> |all| % 2 == 1
  {
  }

  /** A failing cut reports the last preformatted token of the scope, the one left without a closer. */
  lemma {:induction false} PrefRestErrAt(scope: Scope)
    ensures PrefRest(Some(scope)).Err? ==>
      var all := OfKind(scope, Preformatted);
      all != [] && PrefRest(Some(scope)).error == Unpaired(Preformatted, all[|all| - 1].index)
    decreases |scope|
  {
    match NextPref(scope, 0)
    case None => PrefRestNone(scope);
    case Some(o) =>
      match NextPref(scope, o + 1)
      case None => PrefRestLone(scope, o);
      case Some(c) =>
        PrefRestPair(scope, o, c);
        var rest := scope[c + 1..];
        PrefRestErrAt(rest);
        var pr := OfKind(rest, Preformatted);
        if pr != [] {
          var all := [scope[o], scope[c]] + pr;
          assert all[|all| - 1] == pr[|pr| - 1];
        }
  }

  /** No part handed on holds a preformatted token. */
  lemma {:induction false} PrefRestClean(scope: Scope)
    ensures PrefRest(Some(scope)).Ok? ==> Without(PrefRest(Some(scope)).value.scopes, Preformatted)
    decreases |scope|
  {
    match NextPref(scope, 0)
    case None =>
      PrefRestNone(scope);
      NextPrefSkips(scope, 0);
    case Some(o) =>
      match NextPref(scope, o + 1)
      case None => PrefRestLone(scope, o);
      case Some(c) =>
        PrefRestPair(scope, o, c);
        PrefRestClean(scope[c + 1..]);
  }

  /** A scope without preformatted tokens is handed on whole. */
  lemma PrefRestIdentity(scope: Scope)
    requires forall i :: 0 <= i < |scope| ==> scope[i].kind != Preformatted
    ensures PrefRest(Some(scope)) == Ok(Pass([], [scope]))
  {
    PrefRestNone(scope);
  }

  /** The preformatted pass on the one scope `parse` starts from. */
  lemma PrefPassOne(scope: Scope)
    ensures PrefPass([scope]) == if scope == [] then Nothing else PrefRest(Some(scope))
  {
    assert [scope][..0] == [];
    NothingThen(if scope == [] then Nothing else PrefRest(Some(scope)));
  }

  /** The pieces of a pass that succeeds succeed. */
  lemma ThenOk(a: Result<Pass, ParseError>, b: Result<Pass, ParseError>)
    ensures Then(a, b).Ok? <==> a.Ok? && b.Ok?
    ensures Then(a, b).Ok? ==> Then(a, b).value == Join(a.value, b.value)
  {
  }

  /** The preformatted pass pushes exactly the preformatted tokens of its scopes, in order. */
  lemma {:induction false} PrefPassPushed(scopes: seq<Scope>)
    ensures PrefPass(scopes).Ok? ==> PrefPass(scopes).value.pushed == OfKind(Flatten(scopes), Preformatted)
    decreases |scopes|
  {
    if scopes != [] {
      var n := |scopes| - 1;
      PrefPassPushed(scopes[..n]);
      var last := if scopes[n] == [] then Nothing else PrefRest(Some(scopes[n]));
      ThenOk(PrefPass(scopes[..n]), last);
      if scopes[n] != [] {
        PrefRestPushed(scopes[n]);
      }
      OfKindAppend(Flatten(scopes[..n]), scopes[n], Preformatted);
    }
  }

  /** No scope handed on by the preformatted pass holds a preformatted token. */
  lemma {:induction false} PrefPassClean(scopes: seq<Scope>)
    ensures PrefPass(scopes).Ok? ==> Without(PrefPass(scopes).value.scopes, Preformatted)
    decreases |scopes|
  {
    if scopes != [] {
      var n := |scopes| - 1;
      PrefPassClean(scopes[..n]);
      var last := if scopes[n] == [] then Nothing else PrefRest(Some(scopes[n]));
      ThenOk(PrefPass(scopes[..n]), last);
      if PrefPass(scopes).Ok? {
        if scopes[n] != [] {
          PrefRestClean(scopes[n]);
        }
        WithoutJoin(PrefPass(scopes[..n]).value.scopes, last.value.scopes, Preformatted);
      }
    }
  }

  /** A scope with an odd number of preformatted tokens. */
  predicate OddPref(scope: Scope) {
    |OfKind(scope, Preformatted)| % 2 == 1
  }

  /** The preformatted pass fails exactly when one of its scopes holds an odd number of
      preformatted tokens. */
  lemma {:induction false} PrefPassOdd(scopes: seq<Scope>)
    ensures PrefPass(scopes).Err? <==> exists j :: 0 <= j < |scopes| && OddPref(scopes[j])
    decreases |scopes|
  {
    if scopes != [] {
      var n := |scopes| - 1;
      var init := scopes[..n];
      PrefPassOdd(init);
      var last := if scopes[n] == [] then Nothing else PrefRest(Some(scopes[n]));
      ThenOk(PrefPass(init), last);
      if scopes[n] != [] {
        PrefRestOdd(scopes[n]);
      }
      assert last.Err? <==> OddPref(scopes[n]);
      if exists j :: 0 <= j < |scopes| && OddPref(scopes[j]) {
        var j :| 0 <= j < |scopes| && OddPref(scopes[j]);
        if j < n {
          assert init[j] == scopes[j];
        }
      }
      if exists j :: 0 <= j < |init| && OddPref(init[j]) {
        var j :| 0 <= j < |init| && OddPref(init[j]);
        assert scopes[j] == init[j];
      }
    }
  }

  /** The first test of `evalPreformatted`: the block between the tokens at 2 and 15 is cut out,
      leaving the bold token in front of it and the paragraph token behind it. */
  lemma PrefPassExample()
    ensures var bold := TokenValue(0, Bold, [Left]);
      var para := TokenValue(20, Paragraph, []);
      var p2, p15 := TokenValue(2, Preformatted, []), TokenValue(15, Preformatted, []);
      PrefPass([[bold, p2, TokenValue(10, Italic, [Left]), TokenValue(13, Italic, [Right]), p15, para]])
        == Ok(Pass([p2, p15], [[bold], [para]]))
  {
    var bold := TokenValue(0, Bold, [Left]);
    var para := TokenValue(20, Paragraph, []);
    var p2, p15 := TokenValue(2, Preformatted, []), TokenValue(15, Preformatted, []);
    var scope := [bold, p2, TokenValue(10, Italic, [Left]), TokenValue(13, Italic, [Right]), p15, para];
    PrefPassOne(scope);
    assert NextPref(scope, 0) == Some(1);
    assert NextPref(scope, 4) == Some(4);
    assert NextPref(scope, 3) == Some(4);
    assert NextPref(scope, 2) == Some(4);
    PrefRestPair(scope, 1, 4);
    assert scope[5..] == [para] && scope[..1] == [bold];
    assert NextPref([para], 0) == None;
    PrefRestNone([para]);
    assert PrefRest(Some(scope)) == Then(Ok(Pass([p2, p15], [[bold]])), Ok(Pass([], [[para]])));
    assert [p2, p15] + [] == [p2, p15] && [[bold]] + [[para]] == [[bold], [para]];
  }

  /** The second test of `evalPreformatted`: a lone preformatted token at 0 is reported unpaired at 0. */
  lemma PrefUnpairedExample()
    ensures PrefPass([[TokenValue(0, Preformatted, [])]]) == Err(Unpaired(Preformatted, 0))
  {
    var one := [TokenValue(0, Preformatted, [])];
    PrefPassOne(one);
    assert NextPref(one, 0) == Some(0) && NextPref(one, 1) == None;
    PrefRestLone(one, 0);
  }

  // ----------------------------------------------------------- evalParagraph

  /** The `reduce` of `evalParagraph`: the positions, among the first `n` of `scope`, of the
      paragraph tokens, in order. */
  function ParagraphIndexes(scope: Scope, n: nat): (r: seq<nat>)
    requires n <= |scope|
    ensures forall j :: 0 <= j < |r| ==> r[j] < n
    decreases n
  {
    if n == 0 then []
    else ParagraphIndexes(scope, n - 1) + (if scope[n - 1].kind == Paragraph then [n - 1] else [])
  }

  /** The positions collected are increasing, and they are exactly those of the paragraph tokens. */
  lemma {:induction false} ParagraphIndexesExact(scope: Scope, n: nat)
    requires n <= |scope|
    ensures Increasing(ParagraphIndexes(scope, n), n)
    ensures forall j :: 0 <= j < |ParagraphIndexes(scope, n)| ==> scope[ParagraphIndexes(scope, n)[j]].kind == Paragraph
    ensures forall i :: 0 <= i < n && scope[i].kind == Paragraph ==> i in ParagraphIndexes(scope, n)
    decreases n
  {
    if n > 0 {
      ParagraphIndexesExact(scope, n - 1);
    }
  }

  /** `evalParagraph` on one non-empty scope: the paragraph tokens are pushed, and the scope is cut
      at each of them. */
  function ParagraphScope(scope: Scope): Pass {
    var indexes := ParagraphIndexes(scope, |scope|);
    Pass(Picked(scope, indexes), Split(scope, indexes))
  }

  /** `evalParagraph` on values: every non-empty scope in turn; empty scopes are dropped. */
  function ParagraphPass(scopes: seq<Scope>): Pass
    decreases |scopes|
  {
    if scopes == [] then Pass([], [])
    else
      var n := |scopes| - 1;
      if scopes[n] == [] then ParagraphPass(scopes[..n]) else Join(ParagraphPass(scopes[..n]), ParagraphScope(scopes[n]))
  }

  /** The collected positions of the first `n + 1` tokens pick the paragraph tokens among them. */
  lemma {:induction false} ParagraphPickedPrefix(scope: Scope, n: nat)
    requires n <= |scope|
    ensures Picked(scope, ParagraphIndexes(scope, n)) == OfKind(scope[..n], Paragraph)
    decreases n
  {
    if n > 0 {
      ParagraphPickedPrefix(scope, n - 1);
      var before := ParagraphIndexes(scope, n - 1);
      var step := if scope[n - 1].kind == Paragraph then [n - 1] else [];
      var x := scope[n - 1];
      assert Picked(scope, before + step) == Picked(scope, before) + (if x.kind == Paragraph then [x] else []);
      assert scope[..n] == scope[..n - 1] + [x];
      OfKindAppend(scope[..n - 1], [x], Paragraph);
      assert OfKind([x], Paragraph) == (if x.kind == Paragraph then [x] else []) + OfKind([x][1..], Paragraph);
      assert [x][1..] == [];
    }
  }

  /** One scope: the tokens pushed are its paragraph tokens, in order; no part handed on holds a
      paragraph token; and the parts with the paragraph tokens between them make up the scope. */
  lemma ParagraphScopeSpec(scope: Scope)
    ensures ParagraphScope(scope).pushed == OfKind(scope, Paragraph)
    ensures Without(ParagraphScope(scope).scopes, Paragraph)
    ensures |ParagraphScope(scope).scopes| == |ParagraphScope(scope).pushed| + 1
    ensures Interleave(ParagraphScope(scope).scopes, ParagraphScope(scope).pushed) == scope
  {
    var indexes := ParagraphIndexes(scope, |scope|);
    ParagraphPickedPrefix(scope, |scope|);
    assert scope[..|scope|] == scope;
    ParagraphIndexesExact(scope, |scope|);
    SplitRebuilds(scope, indexes);
    var parts := Split(scope, indexes);
    forall j, t: TokenValue | 0 <= j < |parts| && t in parts[j] ensures t.kind != Paragraph {
      ParagraphPartClean(scope, indexes, j, t);
    }
  }

  /** A token of a part lies strictly between two cut positions, so it is not a paragraph token when
      every paragraph position is a cut position. */
  lemma ParagraphPartClean(scope: Scope, indexes: seq<nat>, j: nat, t: TokenValue)
    requires Increasing(indexes, |scope|) && j <= |indexes|
    requires forall i :: 0 <= i < |scope| && scope[i].kind == Paragraph ==> i in indexes
    requires t in Split(scope, indexes)[j]
    ensures t.kind != Paragraph
  {
    var s := SliceStart(indexes, j);
    var e := SliceEnd(scope, indexes, j);
    var part := Split(scope, indexes)[j];
    assert part == Slice(scope, s, e);
    var k :| 0 <= k < |part| && part[k] == t;
    var i := s + k;
    assert i < e && i < |scope| && scope[i] == t;
  }

  /** Every token of a scope handed on by the paragraph pass is a token of one of its input scopes,
      so a type absent from the input stays absent. */
  lemma ParagraphScopeKeeps(scope: Scope, kind: Kind)
    requires forall t :: t in scope ==> t.kind != kind
    ensures Without(ParagraphScope(scope).scopes, kind)
  {
    var indexes := ParagraphIndexes(scope, |scope|);
    forall j, t | 0 <= j < |ParagraphScope(scope).scopes| && t in ParagraphScope(scope).scopes[j] ensures t.kind != kind {
      SplitMembers(scope, indexes, j, t);
    }
  }

  /** The paragraph pass pushes exactly the paragraph tokens of its scopes, in order, and hands on
      scopes without paragraph tokens, and without any type its input lacks. */
  lemma {:induction false} ParagraphPassSpec(scopes: seq<Scope>, kind: Kind)
    ensures ParagraphPass(scopes).pushed == OfKind(Flatten(scopes), Paragraph)
    ensures Without(ParagraphPass(scopes).scopes, Paragraph)
    ensures Without(scopes, kind) ==> Without(ParagraphPass(scopes).scopes, kind)
    decreases |scopes|
  {
    if scopes != [] {
      var n := |scopes| - 1;
      var init := scopes[..n];
      ParagraphPassSpec(init, kind);
      OfKindAppend(Flatten(init), scopes[n], Paragraph);
      if Without(scopes, kind) {
        forall j, t: TokenValue | 0 <= j < |init| && t in init[j] ensures t.kind != kind {
          assert init[j] == scopes[j];
        }
      }
      if scopes[n] != [] {
        ParagraphScopeSpec(scopes[n]);
        WithoutJoin(ParagraphPass(init).scopes, ParagraphScope(scopes[n]).scopes, Paragraph);
        if Without(scopes, kind) {
          ParagraphScopeKeeps(scopes[n], kind);
          WithoutJoin(ParagraphPass(init).scopes, ParagraphScope(scopes[n]).scopes, kind);
        }
      }
    }
  }

  /** `evalParagraph(acc, scopes)`. */
  method EvalParagraph(acc: SortedList<TokenValue>, scopes: seq<Scope>) returns (res: seq<Scope>)
    requires acc.key == ValueIndex && acc.Valid()
    modifies acc
    ensures acc.key == ValueIndex && acc.Valid()
    ensures res == ParagraphPass(scopes).scopes
    ensures acc.items == InsertAll(old(acc.items), ParagraphPass(scopes).pushed, ValueIndex)
  {
    res := [];
    ghost var pushed: seq<TokenValue> := [];
    for n := 0 to |scopes|
      invariant acc.key == ValueIndex && acc.Valid()
      invariant ParagraphPass(scopes[..n]) == Pass(pushed, res)
      invariant acc.items == InsertAll(old(acc.items), pushed, ValueIndex)
    {
      assert scopes[..n + 1][..n] == scopes[..n];
      var scope := scopes[n];
      if scope == [] {
        continue;
      }
      var indexes := ParagraphIndexes(scope, |scope|);
      ghost var picked := Picked(scope, indexes);
      assert pushed + picked[..0] == pushed;
      for k := 0 to |indexes|
        invariant acc.key == ValueIndex && acc.Valid()
        invariant acc.items == InsertAll(old(acc.items), pushed + picked[..k], ValueIndex)
      {
        var _ := acc.Push([scope[indexes[k]]]);
        InsertAllAppend(old(acc.items), pushed + picked[..k], [scope[indexes[k]]], ValueIndex);
        assert pushed + picked[..k] + [scope[indexes[k]]] == pushed + picked[..k + 1];
      }
      var paragraphs := SplitArray(scope, indexes);
      assert picked[..|indexes|] == picked;
      pushed := pushed + picked;
      res := res + paragraphs;
    }
    assert scopes[..|scopes|] == scopes;
  }

  /** The test of `evalParagraph`: the paragraph tokens at 9 and 20 are pushed, and the two scopes
      become four: the part in front of 9, the part behind it, the empty part in front of 20, and
      the part behind 20. */
  lemma ParagraphPassExample()
    ensures var m3, m6 := TokenValue(3, Monospaced, [Left]), TokenValue(6, Monospaced, [Right]);
      var i10, i13 := TokenValue(10, Italic, [Left]), TokenValue(13, Italic, [Right]);
      var b22, b25 := TokenValue(22, Bold, [Left]), TokenValue(25, Bold, [Right]);
      var p9, p20 := TokenValue(9, Paragraph, []), TokenValue(20, Paragraph, []);
      ParagraphPass([[m3, m6, p9, i10, i13], [p20, b22, b25]])
        == Pass([p9, p20], [[m3, m6], [i10, i13], [], [b22, b25]])
  {
    var m3, m6 := TokenValue(3, Monospaced, [Left]), TokenValue(6, Monospaced, [Right]);
    var i10, i13 := TokenValue(10, Italic, [Left]), TokenValue(13, Italic, [Right]);
    var b22, b25 := TokenValue(22, Bold, [Left]), TokenValue(25, Bold, [Right]);
    var p9, p20 := TokenValue(9, Paragraph, []), TokenValue(20, Paragraph, []);
    var a, b := [m3, m6, p9, i10, i13], [p20, b22, b25];
    assert ParagraphIndexes(a, 5) == [2] by {
      assert ParagraphIndexes(a, 2) == [];
    }
    assert ParagraphIndexes(b, 3) == [0];
    ParagraphScopeOne(a, 2);
    ParagraphScopeOne(b, 0);
    assert a[..2] == [m3, m6] && a[3..] == [i10, i13] && b[..0] == [] && b[1..] == [b22, b25];
    ParagraphPassTwo(a, b);
  }

  /** A scope with one paragraph token, at `i`: that token is pushed and the scope is cut in two
      around it. */
  lemma ParagraphScopeOne(scope: Scope, i: nat)
    requires i < |scope| && ParagraphIndexes(scope, |scope|) == [i]
    ensures ParagraphScope(scope) == Pass([scope[i]], [scope[..i], scope[i + 1..]])
  {
    SplitOne(scope, i);
  }

  /** The paragraph pass over two non-empty scopes. */
  lemma ParagraphPassTwo(a: Scope, b: Scope)
    requires a != [] && b != []
    ensures ParagraphPass([a, b]) == Join(ParagraphScope(a), ParagraphScope(b))
  {
    var scopes: seq<Scope> := [a, b];
    assert scopes[..1] == [a] && scopes[..1][..0] == [];
    assert ParagraphPass([a]) == Join(Pass([], []), ParagraphScope(a)) == ParagraphScope(a);
  }

  // ------------------------------------------------------------- checkNested

  /** The test `checkNested` hands to `find`: a token of type `kind` carrying `flank`. */
  function Flanked(kind: Kind, flank: Flank): TokenValue -> bool {
    (t: TokenValue) => t.kind == kind && flank in t.flanks
  }

  /** The position of the first token of type `kind` carrying `flank`, at or after `from`. */
  function NextFlanked(s: Scope, kind: Kind, flank: Flank, from: nat): (r: Option<nat>)
    ensures r.Some? ==> from <= r.value < |s| && s[r.value].kind == kind && flank in s[r.value].flanks
    decreases |s| - from
  {
    if from >= |s| then None
    else if s[from].kind == kind && flank in s[from].flanks then Some(from)
    else NextFlanked(s, kind, flank, from + 1)
  }

  /** No such token is skipped. */
  lemma {:induction false} NextFlankedSkips(s: Scope, kind: Kind, flank: Flank, from: nat)
    ensures NextFlanked(s, kind, flank, from).None? ==>
      forall i :: from <= i < |s| ==> !(s[i].kind == kind && flank in s[i].flanks)
    ensures NextFlanked(s, kind, flank, from).Some? ==>
      forall i :: from <= i < NextFlanked(s, kind, flank, from).value ==> !(s[i].kind == kind && flank in s[i].flanks)
    decreases |s| - from
  {
    if from < |s| && !(s[from].kind == kind && flank in s[from].flanks) {
      NextFlankedSkips(s, kind, flank, from + 1);
    }
  }

  /** `find(scope, token => ..., from)` finds what `NextFlanked` names. */
  lemma {:induction false} FindFlanked(s: Scope, kind: Kind, flank: Flank, from: nat)
    ensures Find(s, Flanked(kind, flank), from).NotFound? <==> NextFlanked(s, kind, flank, from).None?
    ensures Find(s, Flanked(kind, flank), from).Found? ==>
      NextFlanked(s, kind, flank, from) == Some(Find(s, Flanked(kind, flank), from).at)
    decreases |s| - from
  {
    if from < |s| && !Flanked(kind, flank)(s[from]) {
      FindFlanked(s, kind, flank, from + 1);
    }
  }

  /** The position `checkNested` reports for type `kind`: the first right-flanked token behind the
      first left-flanked one. */
  function NestedPair(scope: Scope, kind: Kind): (r: Option<nat>)
    ensures r.Some? ==> r.value < |scope| && scope[r.value].kind == kind && scope[r.value].RightFlanked()
  {
    match NextFlanked(scope, kind, Left, 0)
    case None => None
    case Some(l) => NextFlanked(scope, kind, Right, l + 1)
  }

  /** The first of `kinds` with such a pair, with the position of its right-flanked token. */
  function FirstNested(scope: Scope, kinds: seq<Kind>): (r: Option<(Kind, nat)>)
    ensures r.Some? ==> r.value.0 in kinds && r.value.1 < |scope| && scope[r.value.1].kind == r.value.0
    decreases |kinds|
  {
    if kinds == [] then None
    else
      match NestedPair(scope, kinds[0])
      case Some(r) => Some((kinds[0], r))
      case None => FirstNested(scope, kinds[1..])
  }

  /** `checkNested` as written: the error reports the position of the right-flanked token inside the
      slice it was given. */
  function NestedErrorAsWritten(scope: Scope): (r: Option<ParseError>)
    ensures r.Some? ==> r.value.Nested? && r.value.at < |scope|
  {
    match FirstNested(scope, Delimiters)
    case None => None
    case Some(found) => Some(Nested(found.0, found.1))
  }

  /** `checkNested` as intended: the error reports the index of the right-flanked token in the
      source text, as every other error of the parser does. */
  function NestedError(scope: Scope): (r: Option<ParseError>)
    ensures r.Some? ==> r.value.Nested? && exists p :: 0 <= p < |scope| && scope[p].index == r.value.at
  {
    match FirstNested(scope, Delimiters)
    case None => None
    case Some(found) => Some(Nested(found.0, scope[found.1].index))
  }

  /** A left-flanked delimiter at `l` and a right-flanked one of the same type behind it at `r`. */
  ghost predicate NestedPairAt(scope: Scope, l: int, r: int) {
    && 0 <= l < r < |scope|
    && IsDelimiter(scope[l].kind)
    && scope[r].kind == scope[l].kind
    && scope[l].LeftFlanked()
    && scope[r].RightFlanked()
  }

  lemma NestedPairExists(scope: Scope, kind: Kind)
    ensures NestedPair(scope, kind).Some? <==>
      exists l, r :: 0 <= l < r < |scope| && scope[l].kind == kind && scope[r].kind == kind
        && scope[l].LeftFlanked() && scope[r].RightFlanked()
  {
    NextFlankedSkips(scope, kind, Left, 0);
    match NextFlanked(scope, kind, Left, 0)
    case None =>
    case Some(l0) =>
      NextFlankedSkips(scope, kind, Right, l0 + 1);
  }

  /** Over the three delimiter types, `FirstNested` finds a pair when any of them has one. */
  lemma FirstNestedDelimiters(scope: Scope)
    ensures FirstNested(scope, Delimiters).Some? <==>
      NestedPair(scope, Bold).Some? || NestedPair(scope, Italic).Some? || NestedPair(scope, Monospaced).Some?
  {
    assert Delimiters[1..] == [Italic, Monospaced] && Delimiters[1..][1..] == [Monospaced] && Delimiters[1..][1..][1..] == [];
  }

  /** `checkNested` throws exactly when the slice holds a left-flanked delimiter followed by a
      right-flanked one of the same type; the error names that type and reports the index of a
      right-flanked token of it. */
  lemma NestedErrorIff(scope: Scope)
    ensures NestedError(scope).Some? <==> exists l, r :: NestedPairAt(scope, l, r)
    ensures NestedError(scope).Some? ==>
      var e := NestedError(scope).value;
      IsDelimiter(e.kind) && exists p :: 0 <= p < |scope| && scope[p].kind == e.kind && scope[p].RightFlanked() && scope[p].index == e.at
  {
    FirstNestedDelimiters(scope);
    NestedPairExists(scope, Bold);
    NestedPairExists(scope, Italic);
    NestedPairExists(scope, Monospaced);
    if exists l, r :: NestedPairAt(scope, l, r) {
      var l, r :| NestedPairAt(scope, l, r);
      assert scope[l].kind == Bold || scope[l].kind == Italic || scope[l].kind == Monospaced;
    }
    if NestedError(scope).Some? {
      var found := FirstNested(scope, Delimiters).value;
      assert IsDelimiter(found.0);
      assert NestedPair(scope, found.0).Some?;
      var l, r :| 0 <= l < r < |scope| && scope[l].kind == found.0 && scope[r].kind == found.0
        && scope[l].LeftFlanked() && scope[r].RightFlanked();
      assert NestedPairAt(scope, l, r);
    }
  }

  /** `checkNested(scope)`: nothing happens for the empty scope; otherwise each delimiter type in turn
      is looked for with two `find` calls, and the first pair found throws. */
  method CheckNested(scope: Scope) returns (thrown: Option<ParseError>)
    ensures thrown == NestedError(scope)
  {
    if scope == [] {
      return None;
    }
    for i := 0 to |Delimiters|
      invariant FirstNested(scope, Delimiters) == FirstNested(scope, Delimiters[i..])
    {
      var delimiter := Delimiters[i];
      assert Delimiters[i..][1..] == Delimiters[i + 1..];
      var left := Find(scope, Flanked(delimiter, Left), 0);
      FindFlanked(scope, delimiter, Left, 0);
      if left.NotFound? {
        continue;
      }
      var right := Find(scope, Flanked(delimiter, Right), left.at + 1);
      FindFlanked(scope, delimiter, Right, left.at + 1);
      if right.Found? {
        return Some(Nested(delimiter, right.item.index));
      }
    }
    return None;
  }

  /** The nested-error test of `evalDelimeters`: inside the italic pair, the monospaced pair's closer
      is the token at 10, which as written is reported as 1, its position in the slice. */
  lemma NestedIndexExample()
    ensures var slice := [TokenValue(6, Monospaced, [Left]), TokenValue(10, Monospaced, [Right])];
      && NestedErrorAsWritten(slice) == Some(Nested(Monospaced, 1))
      && NestedError(slice) == Some(Nested(Monospaced, 10))
  {
    var slice := [TokenValue(6, Monospaced, [Left]), TokenValue(10, Monospaced, [Right])];
    assert NextFlanked(slice, Bold, Left, 1) == None;
    assert NextFlanked(slice, Italic, Left, 1) == None;
    assert NestedPair(slice, Bold) == None && NestedPair(slice, Italic) == None;
    assert NestedPair(slice, Monospaced) == Some(1);
    assert Delimiters[1..] == [Italic, Monospaced] && Delimiters[1..][1..] == [Monospaced];
  }

  // ---------------------------------------------------------- evalDelimeters

  /** `scope.indexOf(t)`: the first position holding `t`, or -1 when there is none. */
  function IndexOf(s: Scope, t: TokenValue): (r: int)
    ensures -1 <= r < |s|
    ensures r >= 0 ==> s[r] == t
    ensures r == -1 <==> t !in s
    ensures r >= 0 ==> t !in s[..r]
    decreases |s|
  {
    if s == [] then -1
    else if s[0] == t then 0
    else
      var k := IndexOf(s[1..], t);
      if k == -1 then -1 else k + 1
  }

  /** In a scope ordered by index, `indexOf` finds a token at its own position. */
  lemma IndexOfSorted(s: Scope, p: nat)
    requires p < |s| && StrictlySorted(s, ValueIndex)
    ensures IndexOf(s, s[p]) == p
  {
    assert s[p] in s;
  }

  /** The state of the inner loop of `evalDelimeters`: the position of the open token waiting for its
      closer (`prev`), and the tokens pushed so far in this scope. */
  datatype Delim = Delim(prev: Option<nat>, pushed: seq<TokenValue>)

  /** One token of the inner loop. With no open token, a left-flanked token opens and any other is
      unpaired; with an open token, a right-flanked token of its type closes the pair, once the
      tokens between the two hold no nested pair; every other token is passed over. */
  function DelimStep(scope: Scope, n: nat, st: Delim): (r: Result<Delim, ParseError>)
    requires n < |scope| && (st.prev.Some? ==> st.prev.value < n)
    ensures r.Ok? && r.value.prev.Some? ==> r.value.prev.value <= n
  {
    var t := scope[n];
    match st.prev
    case None =>
      if t.LeftFlanked() then Ok(Delim(Some(n), st.pushed)) else Err(Unpaired(t.kind, t.index))
    case Some(p) =>
      if scope[p].kind == t.kind && t.RightFlanked() then
        assert scope[p] in scope && t in scope;
        var o := IndexOf(scope, scope[p]);
        var c := IndexOf(scope, t);
        match NestedError(Slice(scope, o + 1, c))
        case Some(e) => Err(e)
        case None => Ok(Delim(None, st.pushed + [scope[p], t]))
      else Ok(st)
  }

  /** The inner loop over the first `n` tokens of a scope. */
  function DelimScope(scope: Scope, n: nat): (r: Result<Delim, ParseError>)
    requires n <= |scope|
    ensures r.Ok? && r.value.prev.Some? ==> r.value.prev.value < n
    decreases n
  {
    if n == 0 then Ok(Delim(None, []))
    else
      match DelimScope(scope, n - 1)
      case Err(e) => Err(e)
      case Ok(st) => DelimStep(scope, n - 1, st)
  }

  /** A whole scope: a token still open at its end is unpaired. */
  function DelimScopeEnd(scope: Scope): Result<seq<TokenValue>, ParseError> {
    match DelimScope(scope, |scope|)
    case Err(e) => Err(e)
    case Ok(st) =>
      if st.prev.Some? then Err(Unpaired(scope[st.prev.value].kind, scope[st.prev.value].index))
      else Ok(st.pushed)
  }

  /** `evalDelimeters` on values: the tokens pushed, scope after scope, or the first error. The
      scopes themselves are handed on unchanged. */
  function DelimPass(scopes: seq<Scope>): Result<seq<TokenValue>, ParseError>
    decreases |scopes|
  {
    if scopes == [] then Ok([])
    else
      var n := |scopes| - 1;
      match DelimPass(scopes[..n])
      case Err(e) => Err(e)
      case Ok(a) =>
        if scopes[n] == [] then Ok(a)
        else
          match DelimScopeEnd(scopes[n])
          case Err(e) => Err(e)
          case Ok(b) => Ok(a + b)
  }

  /** An error inside a scope ends the loop over it. */
  lemma {:induction false} DelimScopeErr(scope: Scope, m: nat, n: nat)
    requires m <= n <= |scope| && DelimScope(scope, m).Err?
    ensures DelimScope(scope, n) == DelimScope(scope, m)
    decreases n - m
  {
    if m < n {
      DelimScopeErr(scope, m, n - 1);
      DelimErrStays(scope, n);
    }
  }

  /** An error after `n - 1` tokens is the state after `n`. */
  lemma DelimErrStays(scope: Scope, n: nat)
    requires 0 < n <= |scope| && DelimScope(scope, n - 1).Err?
    ensures DelimScope(scope, n) == DelimScope(scope, n - 1)
  {
  }

  /** An error inside a scope is the error of the scope. */
  lemma DelimEndErr(scope: Scope, k: nat)
    requires k <= |scope| && DelimScope(scope, k).Err?
    ensures DelimScopeEnd(scope) == Err(DelimScope(scope, k).error)
  {
    DelimScopeErr(scope, k, |scope|);
  }

  /** An error in the first scopes is the error of the whole pass. */
  lemma {:induction false} DelimPassErr(scopes: seq<Scope>, m: nat)
    requires m <= |scopes| && DelimPass(scopes[..m]).Err?
    ensures DelimPass(scopes) == DelimPass(scopes[..m])
    decreases |scopes| - m
  {
    if m < |scopes| {
      assert scopes[..m + 1][..m] == scopes[..m];
      DelimPassErr(scopes, m + 1);
    } else {
      assert scopes[..m] == scopes;
    }
  }

  /** The next token, when none is open: a left-flanked one opens, any other is unpaired. */
  lemma DelimOpens(scope: Scope, k: nat, local: seq<TokenValue>)
    requires k < |scope| && DelimScope(scope, k) == Ok(Delim(None, local))
    ensures scope[k].LeftFlanked() ==> DelimScope(scope, k + 1) == Ok(Delim(Some(k), local))
    ensures !scope[k].LeftFlanked() ==> DelimScope(scope, k + 1) == Err(Unpaired(scope[k].kind, scope[k].index))
  {
  }

  /** The next token, when the token at `p` is open: a closer of its type ends the pair, unless
      the tokens between hold a nested pair. */
  lemma DelimCloses(scope: Scope, k: nat, p: nat, local: seq<TokenValue>, o: int, c: int, thrown: Option<ParseError>)
    requires p < k < |scope| && DelimScope(scope, k) == Ok(Delim(Some(p), local))
    requires scope[p].kind == scope[k].kind && scope[k].RightFlanked()
    requires o == IndexOf(scope, scope[p]) && c == IndexOf(scope, scope[k]) && 0 <= o && 0 <= c
    requires thrown == NestedError(Slice(scope, o + 1, c))
    ensures thrown.Some? ==> DelimScope(scope, k + 1) == Err(thrown.value)
    ensures thrown.None? ==> DelimScope(scope, k + 1) == Ok(Delim(None, local + [scope[p], scope[k]]))
  {
    DelimScopeNext(scope, k);
  }

  /** The loop after one more token, from the state before it. */
  lemma DelimScopeNext(scope: Scope, k: nat)
    requires k < |scope| && DelimScope(scope, k).Ok?
    ensures DelimScope(scope, k + 1) == DelimStep(scope, k, DelimScope(scope, k).value)
  {
  }

  /** The next token, when the token at `p` is open and the next one does not close it: it is
      passed over. */
  lemma DelimPasses(scope: Scope, k: nat, p: nat, local: seq<TokenValue>)
    requires p < k < |scope| && DelimScope(scope, k) == Ok(Delim(Some(p), local))
    requires !(scope[p].kind == scope[k].kind && scope[k].RightFlanked())
    ensures DelimScope(scope, k + 1) == Ok(Delim(Some(p), local))
  {
  }

  /** The loop of `evalDelimeters` over the tokens of one scope and the check after it. `prev` is
      null whenever a scope starts, since a scope that ends with a token open throws. */
  method EvalDelimScope(acc: SortedList<TokenValue>, scope: Scope) returns (thrown: Option<ParseError>)
    requires acc.key == ValueIndex && acc.Valid()
    modifies acc
    ensures acc.key == ValueIndex && acc.Valid()
    ensures DelimScopeEnd(scope).Err? ==> thrown == Some(DelimScopeEnd(scope).error)
    ensures DelimScopeEnd(scope).Ok? ==>
      thrown.None? && acc.items == InsertAll(old(acc.items), DelimScopeEnd(scope).value, ValueIndex)
  {
    var prev;
    ghost var at, local;
    prev, thrown, at, local := DelimTokens(acc, scope);
    if thrown.Some? {
      return;
    }
    DelimEnd(scope, at, local);
    if prev.Some? {
      return Some(Unpaired(prev.value.kind, prev.value.index));
    }
  }

  /** The `for (const token of scope)` loop: it throws at the first unpaired or nested token, and
      otherwise ends with the state the inner loop reaches over the whole scope. */
  method DelimTokens(acc: SortedList<TokenValue>, scope: Scope)
    returns (prev: Option<TokenValue>, thrown: Option<ParseError>, ghost at: Option<nat>, ghost local: seq<TokenValue>)
    requires acc.key == ValueIndex && acc.Valid()
    modifies acc
    ensures acc.key == ValueIndex && acc.Valid()
    ensures thrown.Some? ==> DelimScopeEnd(scope) == Err(thrown.value)
    ensures thrown.None? ==>
      && DelimScope(scope, |scope|) == Ok(Delim(at, local))
      && prev == (if at.Some? then Some(scope[at.value]) else None)
      && acc.items == InsertAll(old(acc.items), local, ValueIndex)
  {
    prev, thrown, at, local := None, None, None, [];
    for k := 0 to |scope|
      invariant acc.key == ValueIndex && acc.Valid() && thrown.None?
      invariant DelimScope(scope, k) == Ok(Delim(at, local))
      invariant prev == if at.Some? then Some(scope[at.value]) else None
      invariant acc.items == InsertAll(old(acc.items), local, ValueIndex)
    {
      prev, thrown, at, local := DelimToken(acc, scope, k, prev, at, local, old(acc.items));
      if thrown.Some? {
        return;
      }
    }
  }

  /** One turn of the `for` loop: the token at `k` opens, closes or is passed over, or the loop
      throws. */
  method DelimToken(acc: SortedList<TokenValue>, scope: Scope, k: nat, prev: Option<TokenValue>,
                    ghost at: Option<nat>, ghost local: seq<TokenValue>, ghost base: seq<TokenValue>)
    returns (prev': Option<TokenValue>, thrown: Option<ParseError>, ghost at': Option<nat>, ghost local': seq<TokenValue>)
    requires acc.key == ValueIndex && acc.Valid() && k < |scope|
    requires DelimScope(scope, k) == Ok(Delim(at, local))
    requires prev == if at.Some? then Some(scope[at.value]) else None
    requires acc.items == InsertAll(base, local, ValueIndex)
    modifies acc
    ensures acc.key == ValueIndex && acc.Valid()
    ensures thrown.Some? ==> DelimScopeEnd(scope) == Err(thrown.value)
    ensures thrown.None? ==>
      && DelimScope(scope, k + 1) == Ok(Delim(at', local'))
      && prev' == (if at'.Some? then Some(scope[at'.value]) else None)
      && acc.items == InsertAll(base, local', ValueIndex)
  {
    prev', thrown, at', local' := prev, None, at, local;
    var token := scope[k];
    if prev.None? {
      DelimOpens(scope, k, local);
      if token.LeftFlanked() {
        prev' := Some(token);
        at' := Some(k);
      } else {
        DelimEndErr(scope, k + 1);
        thrown := Some(Unpaired(token.kind, token.index));
      }
    } else if prev.value.kind == token.kind && token.RightFlanked() {
      thrown := DelimClose(acc, scope, k, prev.value, at.value, local, base);
      if thrown.None? {
        local' := local + [prev.value, token];
        prev' := None;
        at' := None;
      }
    } else {
      DelimPasses(scope, k, at.value, local);
    }
  }

  /** The close branch of the loop: the pair is checked for nesting and pushed, or the loop throws. */
  method DelimClose(acc: SortedList<TokenValue>, scope: Scope, k: nat, prev: TokenValue, ghost p: nat,
                    ghost local: seq<TokenValue>, ghost base: seq<TokenValue>)
    returns (thrown: Option<ParseError>)
    requires acc.key == ValueIndex && acc.Valid() && acc.items == InsertAll(base, local, ValueIndex)
    requires p < k < |scope| && DelimScope(scope, k) == Ok(Delim(Some(p), local)) && prev == scope[p]
    requires scope[p].kind == scope[k].kind && scope[k].RightFlanked()
    modifies acc
    ensures acc.key == ValueIndex && acc.Valid()
    ensures thrown.Some? ==> DelimScopeEnd(scope) == Err(thrown.value)
    ensures thrown.None? ==>
      && DelimScope(scope, k + 1) == Ok(Delim(None, local + [scope[p], scope[k]]))
      && acc.items == InsertAll(base, local + [scope[p], scope[k]], ValueIndex)
  {
    ghost var items := acc.items;
    thrown := ClosePair(acc, scope, k, prev, p, local);
    if thrown.Some? {
      DelimEndErr(scope, k + 1);
    } else {
      InsertAllAppend(base, local, [scope[p], scope[k]], ValueIndex);
      assert acc.items == InsertAll(items, [scope[p], scope[k]], ValueIndex);
    }
  }

  /** The whole scope from the state the loop ends in. */
  lemma DelimEnd(scope: Scope, at: Option<nat>, local: seq<TokenValue>)
    requires DelimScope(scope, |scope|) == Ok(Delim(at, local))
    ensures at.Some? ==> at.value < |scope| && DelimScopeEnd(scope) == Err(Unpaired(scope[at.value].kind, scope[at.value].index))
    ensures at.None? ==> DelimScopeEnd(scope) == Ok(local)
  {
  }

  /** The branch of the inner loop that closes the pair opened at `p` with the token at `k`: the
      tokens between the two are checked for a nested pair, then both are pushed. */
  method ClosePair(acc: SortedList<TokenValue>, scope: Scope, k: nat, prev: TokenValue, ghost p: nat, ghost local: seq<TokenValue>)
    returns (thrown: Option<ParseError>)
    requires acc.key == ValueIndex && acc.Valid()
    requires p < k < |scope| && DelimScope(scope, k) == Ok(Delim(Some(p), local)) && prev == scope[p]
    requires scope[p].kind == scope[k].kind && scope[k].RightFlanked()
    modifies acc
    ensures acc.key == ValueIndex && acc.Valid()
    ensures thrown.Some? ==> DelimScope(scope, k + 1) == Err(thrown.value)
    ensures thrown.None? ==>
      && DelimScope(scope, k + 1) == Ok(Delim(None, local + [scope[p], scope[k]]))
      && acc.items == InsertAll(old(acc.items), [scope[p], scope[k]], ValueIndex)
  {
    var token := scope[k];
    assert prev in scope && token in scope;
    var o := IndexOf(scope, prev);
    var c := IndexOf(scope, token);
    thrown := CheckNested(Slice(scope, o + 1, c));
    DelimCloses(scope, k, p, local, o, c, thrown);
    if thrown.None? {
      var _ := acc.Push([prev, token]);
    }
  }

  /** `evalDelimeters(acc, scopes)`. */
  method EvalDelimiters(acc: SortedList<TokenValue>, scopes: seq<Scope>) returns (r: Result<seq<Scope>, ParseError>)
    requires acc.key == ValueIndex && acc.Valid()
    modifies acc
    ensures acc.key == ValueIndex && acc.Valid()
    ensures DelimPass(scopes).Err? ==> r == Err(DelimPass(scopes).error)
    ensures DelimPass(scopes).Ok? ==>
      r == Ok(scopes) && acc.items == InsertAll(old(acc.items), DelimPass(scopes).value, ValueIndex)
  {
    ghost var pushed: seq<TokenValue> := [];
    for n := 0 to |scopes|
      invariant acc.key == ValueIndex && acc.Valid()
      invariant DelimPass(scopes[..n]) == Ok(pushed)
      invariant acc.items == InsertAll(old(acc.items), pushed, ValueIndex)
    {
      assert scopes[..n + 1][..n] == scopes[..n];
      var scope := scopes[n];
      if scope == [] {
        continue;
      }
      var thrown := EvalDelimScope(acc, scope);
      if thrown.Some? {
        DelimPassErr(scopes, n + 1);
        return Err(thrown.value);
      }
      InsertAllAppend(old(acc.items), pushed, DelimScopeEnd(scope).value, ValueIndex);
      pushed := pushed + DelimScopeEnd(scope).value;
    }
    assert scopes[..|scopes|] == scopes;
    return Ok(scopes);
  }

  /** A run of pairs, each a left-flanked token followed by a right-flanked one of the same type. */
  ghost predicate Paired(ps: seq<TokenValue>)
    decreases |ps|
  {
    || ps == []
    || (&& |ps| >= 2
        && Paired(ps[..|ps| - 2])
        && ps[|ps| - 2].kind == ps[|ps| - 1].kind
        && ps[|ps| - 2].LeftFlanked()
        && ps[|ps| - 1].RightFlanked())
  }

  lemma {:induction false} PairedJoin(a: seq<TokenValue>, b: seq<TokenValue>)
    requires Paired(a) && Paired(b)
    ensures Paired(a + b)
    decreases |b|
  {
    if b == [] {
      assert a + b == a;
    } else {
      var k := |b| - 2;
      PairedJoin(a, b[..k]);
      assert (a + b)[..|a + b| - 2] == a + b[..k];
    }
  }

  /** Inside a scope the pushed tokens come in pairs, each pair's tokens are tokens of the scope,
      and the token left open is left-flanked. */
  lemma {:induction false} DelimScopePaired(scope: Scope, n: nat)
    requires n <= |scope|
    ensures DelimScope(scope, n).Ok? ==>
      var st := DelimScope(scope, n).value;
      && Paired(st.pushed)
      && (forall t :: t in st.pushed ==> t in scope)
      && (st.prev.Some? ==> scope[st.prev.value].LeftFlanked())
    decreases n
  {
    if n > 0 {
      DelimScopePaired(scope, n - 1);
      if DelimScope(scope, n - 1).Ok? {
        DelimScopeNext(scope, n - 1);
        PairedStep(scope, n - 1, DelimScope(scope, n - 1).value, DelimScope(scope, n));
      }
    }
  }

  /** One token of the inner loop keeps the pushed tokens in pairs of tokens of the scope, and the
      open token left-flanked. */
  lemma PairedStep(scope: Scope, k: nat, st: Delim, r: Result<Delim, ParseError>)
    requires k < |scope| && (st.prev.Some? ==> st.prev.value < k) && r == DelimStep(scope, k, st)
    requires Paired(st.pushed) && (forall t :: t in st.pushed ==> t in scope)
    requires st.prev.Some? ==> scope[st.prev.value].LeftFlanked()
    ensures r.Ok? ==>
      && Paired(r.value.pushed)
      && (forall t :: t in r.value.pushed ==> t in scope)
      && (r.value.prev.Some? ==> scope[r.value.prev.value].LeftFlanked())
  {
    if st.prev.Some? && r.Ok? && r.value.prev.None? {
      var p := st.prev.value;
      var ps := st.pushed + [scope[p], scope[k]];
      assert r.value.pushed == ps;
      assert ps[..|ps| - 2] == st.pushed;
    }
  }

  /** The delimiter pass pushes pairs of tokens of its scopes: a type absent from the scopes is
      absent from what it pushes. */
  lemma {:induction false} DelimPassPaired(scopes: seq<Scope>, kind: Kind)
    ensures DelimPass(scopes).Ok? ==> Paired(DelimPass(scopes).value)
    ensures DelimPass(scopes).Ok? && Without(scopes, kind) ==> forall t :: t in DelimPass(scopes).value ==> t.kind != kind
    decreases |scopes|
  {
    if scopes != [] {
      var n := |scopes| - 1;
      var init := scopes[..n];
      DelimPassPaired(init, kind);
      if DelimPass(scopes).Ok? && scopes[n] != [] {
        DelimScopePaired(scopes[n], |scopes[n]|);
        PairedJoin(DelimPass(init).value, DelimScopeEnd(scopes[n]).value);
        if Without(scopes, kind) {
          assert forall j, t :: 0 <= j < |init| && t in init[j] ==> t in scopes[j];
        }
      }
    }
  }

  /** A scope whose first token is not left-flanked is rejected at that token. */
  lemma DelimFirstUnpaired(scope: Scope)
    requires scope != [] && !scope[0].LeftFlanked()
    ensures DelimScopeEnd(scope) == Err(Unpaired(scope[0].kind, scope[0].index))
  {
    DelimEndErr(scope, 1);
  }

  /** In a scope ordered by index, closing the pair opened at `p` with the token at `k` fails exactly
      when the tokens strictly between the two hold a nested pair, and then with a nested error. */
  lemma DelimClosesSorted(scope: Scope, k: nat, p: nat, local: seq<TokenValue>)
    requires StrictlySorted(scope, ValueIndex)
    requires p < k < |scope| && DelimScope(scope, k) == Ok(Delim(Some(p), local))
    requires scope[p].kind == scope[k].kind && scope[k].RightFlanked()
    ensures DelimScope(scope, k + 1).Err? <==> exists l, r :: p < l && r < k && NestedPairAt(scope, l, r)
    ensures DelimScope(scope, k + 1).Err? ==> DelimScope(scope, k + 1).error.Nested?
    ensures DelimScope(scope, k + 1).Ok? ==> DelimScope(scope, k + 1) == Ok(Delim(None, local + [scope[p], scope[k]]))
  {
    IndexOfSorted(scope, p);
    IndexOfSorted(scope, k);
    assert Slice(scope, p + 1, k) == scope[p + 1..k];
    NestedErrorIff(scope[p + 1..k]);
    NestedInner(scope, scope[p + 1..k], p, k);
    DelimCloses(scope, k, p, local, p, k, NestedError(scope[p + 1..k]));
  }

  /** A nested pair of the tokens strictly between `p` and `k` is one of the scope between them. */
  lemma NestedInner(scope: Scope, inner: Scope, p: nat, k: nat)
    requires p < k <= |scope| && inner == scope[p + 1..k]
    ensures (exists l, r :: NestedPairAt(inner, l, r)) <==> exists l, r :: p < l && r < k && NestedPairAt(scope, l, r)
  {
    if exists l, r :: NestedPairAt(inner, l, r) {
      var l, r :| NestedPairAt(inner, l, r);
      assert NestedPairAt(scope, l + p + 1, r + p + 1);
    }
    if exists l, r :: p < l && r < k && NestedPairAt(scope, l, r) {
      var l, r :| p < l && r < k && NestedPairAt(scope, l, r);
      assert NestedPairAt(inner, l - p - 1, r - p - 1);
    }
  }

  /** `indexOf` finds a token that does not occur in front of position `p` at `p`. */
  lemma {:induction false} IndexOfFirst(s: Scope, p: nat)
    requires p < |s| && forall i :: 0 <= i < p ==> s[i] != s[p]
    ensures IndexOf(s, s[p]) == p
    decreases p
  {
    if p > 0 {
      assert s[1..][p - 1] == s[p];
      IndexOfFirst(s[1..], p - 1);
    }
  }

  /** An opener at `k` followed straight away by a closer of its type, both at their first
      occurrence: the pair is pushed and nothing stays open. */
  lemma DelimAdjacentPair(s: Scope, k: nat, local: seq<TokenValue>)
    requires k + 1 < |s| && DelimScope(s, k) == Ok(Delim(None, local))
    requires s[k].LeftFlanked() && s[k + 1].kind == s[k].kind && s[k + 1].RightFlanked()
    requires IndexOf(s, s[k]) == k && IndexOf(s, s[k + 1]) == k + 1
    ensures DelimScope(s, k + 2) == Ok(Delim(None, local + [s[k], s[k + 1]]))
  {
    NestedErrorIff([]);
    DelimOpens(s, k, local);
    DelimCloses(s, k + 1, k, local, k, k + 1, None);
  }

  /** The scope the first two tests of `evalDelimeters` start with: two pairs, one after the other,
      all pushed. */
  lemma DelimTwoPairsExample(s: Scope)
    requires s == [TokenValue(3, Monospaced, [Left]), TokenValue(6, Monospaced, [Right]),
                   TokenValue(10, Italic, [Left]), TokenValue(13, Italic, [Right])]
    ensures DelimScopeEnd(s) == Ok(s)
  {
    IndexOfFirst(s, 0);
    IndexOfFirst(s, 1);
    IndexOfFirst(s, 2);
    IndexOfFirst(s, 3);
    DelimAdjacentPair(s, 0, []);
    assert [] + [s[0], s[1]] == s[..2];
    DelimAdjacentPair(s, 2, s[..2]);
    assert s[..2] + [s[2], s[3]] == s;
  }

  /** The second scope of the first two tests of `evalDelimeters`: a bold pair is pushed, a bold
      opener alone is unpaired. */
  lemma DelimBoldExample(s: Scope)
    requires s == [TokenValue(22, Bold, [Left]), TokenValue(25, Bold, [Right])]
    ensures DelimScopeEnd(s) == Ok(s) && DelimScopeEnd(s[..1]) == Err(Unpaired(Bold, 22))
  {
    NestedErrorIff([]);
    DelimOpens(s, 0, []);
    IndexOfFirst(s, 0);
    IndexOfFirst(s, 1);
    DelimCloses(s, 1, 0, [], 0, 1, None);
    assert [] + [s[0], s[1]] == s;
    DelimOpens(s[..1], 0, []);
  }

  /** A pass over one scope is the pass over that scope. */
  lemma DelimPassOne(scope: Scope)
    ensures DelimPass([scope]) == DelimScopeEnd(scope)
  {
    var one: seq<Scope> := [scope];
    assert one[..0] == [];
    if DelimScopeEnd(scope).Ok? {
      assert [] + DelimScopeEnd(scope).value == DelimScopeEnd(scope).value;
    }
    if scope == [] {
      assert DelimScope(scope, 0) == Ok(Delim(None, []));
    }
  }

  /** A pass over two scopes, when the first one passes. */
  lemma DelimPassTwo(a: Scope, b: Scope)
    requires DelimScopeEnd(a).Ok? && b != []
    ensures DelimPass([a, b]) == match DelimScopeEnd(b)
      case Err(e) => Err(e)
      case Ok(pushed) => Ok(DelimScopeEnd(a).value + pushed)
  {
    DelimPassOne(a);
    var both: seq<Scope> := [a, b];
    assert both[..1] == [a];
  }

  /** The first two tests of `evalDelimeters`: with a bold pair in the second scope every token is
      pushed; with the bold opener alone it is reported unpaired at 22. */
  lemma DelimPassExample(a: Scope, b: Scope)
    requires a == [TokenValue(3, Monospaced, [Left]), TokenValue(6, Monospaced, [Right]),
                   TokenValue(10, Italic, [Left]), TokenValue(13, Italic, [Right])]
    requires b == [TokenValue(22, Bold, [Left]), TokenValue(25, Bold, [Right])]
    ensures DelimPass([a, b]) == Ok(a + b)
    ensures DelimPass([a, b[..1]]) == Err(Unpaired(Bold, 22))
  {
    DelimTwoPairsExample(a);
    DelimBoldExample(b);
    DelimPassTwo(a, b);
    DelimPassTwo(a, b[..1]);
  }

  /** The nested-error test of `evalDelimeters`: the monospaced pair at 6 and 10 inside the italic
      pair at 3 and 13 is reported at 10, the index of its closer. */
  lemma DelimNestedExample()
    ensures var i3, i13 := TokenValue(3, Italic, [Left]), TokenValue(13, Italic, [Right]);
      var m6, m10 := TokenValue(6, Monospaced, [Left]), TokenValue(10, Monospaced, [Right]);
      DelimPass([[i3, m6, m10, i13]]) == Err(Nested(Monospaced, 10))
  {
    var i3, i13 := TokenValue(3, Italic, [Left]), TokenValue(13, Italic, [Right]);
    var m6, m10 := TokenValue(6, Monospaced, [Left]), TokenValue(10, Monospaced, [Right]);
    var s := [i3, m6, m10, i13];
    DelimOpens(s, 0, []);
    DelimPasses(s, 1, 0, []);
    DelimPasses(s, 2, 0, []);
    IndexOfFirst(s, 0);
    IndexOfFirst(s, 3);
    assert Slice(s, 1, 3) == [m6, m10];
    NestedIndexExample();
    DelimCloses(s, 3, 0, [], 0, 3, Some(Nested(Monospaced, 10)));
    DelimEndErr(s, 4);
    DelimPassOne(s);
  }

  // ------------------------------------------------------------------- parse

  /** What `parse` returns: the resolved tokens, in index order, and the preprocessed text. */
  datatype Parsed = Parsed(tokens: seq<TokenValue>, processed: string)

  /** The three passes of `pipeline`, run one after the other from the single scope holding every
      token: the tokens each pass pushed, in push order, or the first error thrown. */
  function Resolve(tokens: Scope): Result<seq<TokenValue>, ParseError> {
    match PrefPass([tokens])
    case Err(e) => Err(e)
    case Ok(p1) =>
      var p2 := ParagraphPass(p1.scopes);
      match DelimPass(p2.scopes)
      case Err(e) => Err(e)
      case Ok(p3) => Ok(p1.pushed + p2.pushed + p3)
  }

  /** Reference definition of `parse(src)`: preprocess, tokenize, resolve, and push every accepted
      token into one list ordered by index. */
  function ParseSpec(src: string): (r: Result<Parsed, ParseError>)
    ensures r.Ok? ==> NoTriple(r.value.processed)
  {
    PreProcessNoTriple(src);
    var processed := PreProcess(src);
    Collect(processed, Tokens(processed))
  }

  /** The end of `parse` once the text is tokenized: the resolved tokens pushed into an empty list. */
  function Collect(processed: string, tokens: Scope): (r: Result<Parsed, ParseError>)
    ensures r.Ok? ==> r.value.processed == processed
  {
    match Resolve(tokens)
    case Err(e) => Err(e)
    case Ok(pushed) => Ok(Parsed(InsertAll([], pushed, ValueIndex), processed))
  }

  /** Tokens of type `kind`. */
  function HasKind(kind: Kind): TokenValue -> bool {
    (t: TokenValue) => t.kind == kind
  }

  /** The tokens of one type hold that type and no other. */
  lemma {:induction false} CountOfKind(s: Scope, kind: Kind, other: Kind)
    ensures Count(OfKind(s, kind), HasKind(other)) == if kind == other then |OfKind(s, kind)| else 0
    decreases |s|
  {
    if s != [] {
      CountOfKind(s[1..], kind, other);
      var head: Scope := if s[0].kind == kind then [s[0]] else [];
      CountAppend(head, OfKind(s[1..], kind), HasKind(other));
      if s[0].kind == kind {
        assert head[1..] == [];
      }
    }
  }

  /** A type absent from `s` is counted zero times. */
  lemma {:induction false} CountAbsent(s: Scope, kind: Kind)
    requires forall t :: t in s ==> t.kind != kind
    ensures Count(s, HasKind(kind)) == 0
    decreases |s|
  {
    if s != [] {
      assert s[0] in s;
      assert forall t :: t in s[1..] ==> t in s;
      CountAbsent(s[1..], kind);
    }
  }

  /** Pairs of one type each hold every type an even number of times. */
  lemma {:induction false} PairedEven(ps: seq<TokenValue>, kind: Kind)
    requires Paired(ps)
    ensures Count(ps, HasKind(kind)) % 2 == 0
    decreases |ps|
  {
    if ps != [] {
      var n := |ps| - 2;
      var pair := ps[n..];
      PairedEven(ps[..n], kind);
      assert ps == ps[..n] + pair;
      CountAppend(ps[..n], pair, HasKind(kind));
      assert pair == [ps[n]] + [ps[n + 1]];
      CountAppend([ps[n]], [ps[n + 1]], HasKind(kind));
      assert Count([ps[n]], HasKind(kind)) == Count([ps[n + 1]], HasKind(kind));
    }
  }

  lemma FlattenOne(scope: Scope)
    ensures Flatten([scope]) == scope
  {
    var one: seq<Scope> := [scope];
    assert one[..0] == [];
  }

  /** What the delimiter pass can only report: a delimiter type or the type of a token of its scopes. */
  lemma {:induction false} DelimScopeErrKind(scope: Scope, n: nat, kind: Kind)
    requires n <= |scope| && !IsDelimiter(kind) && forall t :: t in scope ==> t.kind != kind
    ensures DelimScope(scope, n).Err? ==> DelimScope(scope, n).error.kind != kind
    decreases n
  {
    if n > 0 {
      DelimScopeErrKind(scope, n - 1, kind);
      assert scope[n - 1] in scope;
      if DelimScope(scope, n - 1).Ok? {
        DelimStepErrKind(scope, n - 1, DelimScope(scope, n - 1).value);
      }
    }
  }

  /** One token of the inner loop reports either that token's type or a delimiter type. */
  lemma DelimStepErrKind(scope: Scope, n: nat, st: Delim)
    requires n < |scope| && (st.prev.Some? ==> st.prev.value < n)
    ensures DelimStep(scope, n, st).Err? ==>
      DelimStep(scope, n, st).error.kind == scope[n].kind || IsDelimiter(DelimStep(scope, n, st).error.kind)
  {
    if st.prev.Some? && scope[st.prev.value].kind == scope[n].kind && scope[n].RightFlanked() {
      var p := st.prev.value;
      assert scope[p] in scope && scope[n] in scope;
      var o := IndexOf(scope, scope[p]);
      var c := IndexOf(scope, scope[n]);
      var slice := Slice(scope, o + 1, c);
      if FirstNested(slice, Delimiters).Some? {
        assert FirstNested(slice, Delimiters).value.0 in Delimiters;
      }
    }
  }

  lemma {:induction false} DelimPassErrKind(scopes: seq<Scope>, kind: Kind)
    requires !IsDelimiter(kind) && Without(scopes, kind)
    ensures DelimPass(scopes).Err? ==> DelimPass(scopes).error.kind != kind
    decreases |scopes|
  {
    if scopes != [] {
      var n := |scopes| - 1;
      assert Without(scopes[..n], kind);
      DelimPassErrKind(scopes[..n], kind);
      if scopes[n] != [] {
        var scope := scopes[n];
        assert forall t :: t in scope ==> t.kind != kind;
        DelimScopeErrKind(scope, |scope|, kind);
        if DelimScope(scope, |scope|).Ok? && DelimScope(scope, |scope|).value.prev.Some? {
          assert scope[DelimScope(scope, |scope|).value.prev.value] in scope;
        }
      }
    }
  }

  /** The preformatted pass over the single scope of all tokens: it pushes the preformatted tokens,
      an even number of them, and hands on no preformatted token. */
  lemma PrefStage(tokens: Scope)
    requires PrefPass([tokens]).Ok?
    ensures PrefPass([tokens]).value.pushed == OfKind(tokens, Preformatted)
    ensures Without(PrefPass([tokens]).value.scopes, Preformatted)
    ensures |OfKind(tokens, Preformatted)| % 2 == 0
  {
    var one: seq<Scope> := [tokens];
    PrefPassPushed(one);
    FlattenOne(tokens);
    PrefPassClean(one);
    PrefPassOdd(one);
    assert !OddPref(one[0]);
  }

  /** Every type but paragraph is pushed an even number of times: preformatted tokens are cut in
      pairs, delimiters are pushed in pairs, and each pass pushes only its own types. */
  lemma ResolveEven(tokens: Scope, kind: Kind)
    requires kind != Paragraph
    ensures Resolve(tokens).Ok? ==> Count(Resolve(tokens).value, HasKind(kind)) % 2 == 0
  {
    if Resolve(tokens).Ok? {
      var p1 := PrefPass([tokens]).value;
      var p2 := ParagraphPass(p1.scopes);
      var p3 := DelimPass(p2.scopes).value;
      PrefPushedEven(tokens, p1, kind);
      ParagraphPushedNone(p1.scopes, kind);
      DelimPassPaired(p2.scopes, kind);
      EvenJoin(p1.pushed, p2.pushed, p3, kind);
    }
  }

  lemma EvenJoin(a: seq<TokenValue>, b: seq<TokenValue>, c: seq<TokenValue>, kind: Kind)
    requires Count(a, HasKind(kind)) % 2 == 0 && Count(b, HasKind(kind)) == 0 && Paired(c)
    ensures Count(a + b + c, HasKind(kind)) % 2 == 0
  {
    var has := HasKind(kind);
    CountAppend(a + b, c, has);
    CountAppend(a, b, has);
    PairedEven(c, kind);
    EvenSum(Count(a, has), Count(c, has));
  }

  /** The preformatted pass pushes every type an even number of times. */
  lemma PrefPushedEven(tokens: Scope, p1: Pass, kind: Kind)
    requires PrefPass([tokens]) == Ok(p1)
    ensures Count(p1.pushed, HasKind(kind)) % 2 == 0
  {
    PrefStage(tokens);
    CountOfKind(tokens, Preformatted, kind);
    var c1 := Count(p1.pushed, HasKind(kind));
    if kind == Preformatted {
      assert c1 == |OfKind(tokens, Preformatted)|;
    } else {
      assert c1 == 0;
    }
    assert c1 % 2 == 0;
  }

  /** The paragraph pass pushes paragraph tokens only. */
  lemma ParagraphPushedNone(scopes: seq<Scope>, kind: Kind)
    requires kind != Paragraph
    ensures Count(ParagraphPass(scopes).pushed, HasKind(kind)) == 0
  {
    ParagraphPassSpec(scopes, kind);
    CountOfKind(Flatten(scopes), Paragraph, kind);
  }

  lemma EvenSum(x: nat, y: nat)
    requires x % 2 == 0 && y % 2 == 0
    ensures (x + y) % 2 == 0
  {
  }

  /** With an odd number of preformatted tokens `parse` fails, reporting the last of them as
      unpaired. */
  lemma ResolvePrefOdd(tokens: Scope)
    requires |OfKind(tokens, Preformatted)| % 2 == 1
    ensures var all := OfKind(tokens, Preformatted);
      Resolve(tokens) == Err(Unpaired(Preformatted, all[|all| - 1].index))
  {
    PrefPassOne(tokens);
    PrefRestOdd(tokens);
    PrefRestErrAt(tokens);
  }

  /** Once the preformatted pass succeeds, no later pass reports a preformatted token, and the
      preformatted tokens were even in number. */
  lemma ResolveAfterPref(tokens: Scope)
    requires PrefPass([tokens]).Ok?
    ensures |OfKind(tokens, Preformatted)| % 2 == 0
    ensures Resolve(tokens).Err? ==> Resolve(tokens).error.kind != Preformatted
  {
    var p1 := PrefPass([tokens]).value;
    PrefStage(tokens);
    ParagraphPassSpec(p1.scopes, Preformatted);
    DelimPassErrKind(ParagraphPass(p1.scopes).scopes, Preformatted);
  }

  /** The preformatted pass fails only on an odd number of preformatted tokens. */
  lemma PrefPassErrOdd(tokens: Scope)
    requires PrefPass([tokens]).Err?
    ensures |OfKind(tokens, Preformatted)| % 2 == 1
  {
    PrefPassOne(tokens);
    PrefRestOdd(tokens);
  }

  /** A preformatted token is reported only when the number of preformatted tokens is odd: the later
      passes see no preformatted token. */
  lemma ResolvePrefErr(tokens: Scope)
    requires Resolve(tokens).Err? && Resolve(tokens).error.kind == Preformatted
    ensures |OfKind(tokens, Preformatted)| % 2 == 1
  {
    if PrefPass([tokens]).Ok? {
      ResolveAfterPref(tokens);
    } else {
      PrefPassErrOdd(tokens);
    }
  }

  /** `parse` returns its tokens in index order, exactly the tokens the passes accepted. */
  lemma CollectSorted(processed: string, tokens: Scope)
    ensures Collect(processed, tokens).Ok? ==>
      var parsed := Collect(processed, tokens).value;
      && Sorted(parsed.tokens, ValueIndex)
      && multiset(parsed.tokens) == multiset(Resolve(tokens).value)
  {
    if Resolve(tokens).Ok? {
      InsertAllSorted([], Resolve(tokens).value, ValueIndex);
      InsertAllMultiset([], Resolve(tokens).value, ValueIndex);
    }
  }

  /** Bold, italic, monospaced and preformatted tokens each come out of `parse` an even number of
      times. */
  lemma CollectEven(processed: string, tokens: Scope, kind: Kind)
    requires kind != Paragraph
    ensures Collect(processed, tokens).Ok? ==> Count(Collect(processed, tokens).value.tokens, HasKind(kind)) % 2 == 0
  {
    if Resolve(tokens).Ok? {
      ResolveEven(tokens, kind);
      InsertAllCount([], Resolve(tokens).value, ValueIndex, HasKind(kind));
    }
  }

  /** `parse` fails on an unpaired preformatted token exactly when the text holds an odd number of
      them, and then reports the last one. */
  lemma CollectPrefUnpaired(processed: string, tokens: Scope)
    ensures var all := OfKind(tokens, Preformatted);
      |all| % 2 == 1 ==> Collect(processed, tokens) == Err(Unpaired(Preformatted, all[|all| - 1].index))
    ensures var all := OfKind(tokens, Preformatted);
      Collect(processed, tokens).Err? && Collect(processed, tokens).error.kind == Preformatted ==> |all| % 2 == 1
  {
    if |OfKind(tokens, Preformatted)| % 2 == 1 {
      ResolvePrefOdd(tokens);
    }
    if Resolve(tokens).Err? && Resolve(tokens).error.kind == Preformatted {
      ResolvePrefErr(tokens);
    }
  }

  /** The three properties above for `parse` itself: a sorted result over a text that preprocessing
      leaves as it is, even counts, and the unpaired preformatted error. */
  lemma ParseProperties(src: string, kind: Kind)
    requires kind != Paragraph
    ensures ParseSpec(src).Ok? ==>
      var parsed := ParseSpec(src).value;
      && Sorted(parsed.tokens, ValueIndex)
      && PreProcess(parsed.processed) == parsed.processed
      && Count(parsed.tokens, HasKind(kind)) % 2 == 0
    ensures var all := OfKind(Tokens(PreProcess(src)), Preformatted);
      |all| % 2 == 1 <==> ParseSpec(src).Err? && ParseSpec(src).error.kind == Preformatted
  {
    var processed := PreProcess(src);
    var tokens := Tokens(processed);
    CollectSorted(processed, tokens);
    CollectEven(processed, tokens, kind);
    CollectPrefUnpaired(processed, tokens);
    PreProcessIdempotent(src);
  }

  /** `parse(src)`: preprocess, tokenize, and run the pipeline of passes into a fresh list. */
  method Parse(src: string) returns (r: Result<(SortedList<TokenValue>, string), ParseError>)
    ensures ParseSpec(src).Err? ==> r == Err(ParseSpec(src).error)
    ensures ParseSpec(src).Ok? ==> && r.Ok? && fresh(r.value.0) && r.value.0.key == ValueIndex && r.value.0.Valid()
                                   && r.value.0.items == ParseSpec(src).value.tokens
                                   && r.value.1 == ParseSpec(src).value.processed
  {
    var processed := PreProcess(src);
    var list := Tokenize(processed);
    var tokens := Values(list.items);
    var res := new SortedList<TokenValue>(ValueIndex);
    var r1 := EvalPref(res, [tokens]);
    if r1.Err? {
      return Err(r1.error);
    }
    var r2 := EvalParagraph(res, r1.value);
    var r3 := EvalDelimiters(res, r2);
    if r3.Err? {
      return Err(r3.error);
    }
    var p1 := PrefPass([tokens]).value;
    InsertAllAppend([], p1.pushed, ParagraphPass(p1.scopes).pushed, ValueIndex);
    InsertAllAppend([], p1.pushed + ParagraphPass(p1.scopes).pushed, DelimPass(r2).value, ValueIndex);
    return Ok((res, processed));
  }

  /** The empty text parses to no tokens. */
  lemma ParseEmpty(src: string)
    requires src == ""
    ensures ParseSpec(src) == Ok(Parsed([], src))
  {
    TokensEmpty();
    assert PreProcess(src) == src;
    PrefPassOne([]);
    NothingThen(Nothing);
    assert PrefPass([[]]) == Nothing;
    assert Resolve([]) == Ok([]);
  }

  /** The three passes on one opener and the closer of its type right after it: the preformatted
      and paragraph passes hand the scope on whole, and the delimiter pass pushes the pair. */
  lemma ResolveDelimPair(a: TokenValue, b: TokenValue)
    requires a.kind == b.kind && a.kind != Preformatted && a.kind != Paragraph
    requires a.LeftFlanked() && b.RightFlanked() && a.index < b.index
    ensures Resolve([a, b]) == Ok([a, b])
  {
    var s := [a, b];
    PrefPassOne(s);
    assert NextPref(s, 0).None?;
    PrefRestNone(s);
    ParagraphPassWhole(s);
    IndexOfFirst(s, 0);
    IndexOfFirst(s, 1);
    assert DelimScope(s, 0) == Ok(Delim(None, []));
    DelimAdjacentPair(s, 0, []);
    assert [] + [s[0], s[1]] == s;
    DelimPassOne(s);
  }

  /** A scope without paragraph tokens goes through the paragraph pass whole. */
  lemma ParagraphPassWhole(s: Scope)
    requires s != [] && forall i :: 0 <= i < |s| ==> s[i].kind != Paragraph
    ensures ParagraphPass([s]) == Pass([], [s])
  {
    ParagraphIndexesNone(s, |s|);
    assert Slice(s, SliceStart([], 0), SliceEnd(s, [], 0)) == s;
    assert Split(s, []) == [s];
    assert [s][..0] == [];
  }

  /** No paragraph token among the first `n` means no position is collected. */
  lemma {:induction false} ParagraphIndexesNone(s: Scope, n: nat)
    requires n <= |s| && forall i :: 0 <= i < n ==> s[i].kind != Paragraph
    ensures ParagraphIndexes(s, n) == []
    decreases n
  {
    if n > 0 {
      ParagraphIndexesNone(s, n - 1);
    }
  }

  /** A text with no triple newline whose tokens are one opener and the closer of its type right
      after it parses to that pair, over the text unchanged. */
  lemma ParseDelimPair(src: string, a: TokenValue, b: TokenValue)
    requires NoTriple(src) && Tokens(src) == [a, b]
    requires a.kind == b.kind && a.kind != Preformatted && a.kind != Paragraph
    requires a.LeftFlanked() && b.RightFlanked() && a.index < b.index
    ensures ParseSpec(src) == Ok(Parsed([a, b], src))
  {
    PreProcessIdentity(src);
    ResolveDelimPair(a, b);
    PushPair(a, b);
  }

  /** Pushing two tokens in index order into an empty list keeps them in that order. */
  lemma PushPair(a: TokenValue, b: TokenValue)
    requires a.index < b.index
    ensures InsertAll([], [a, b], ValueIndex) == [a, b]
  {
    assert [a][1..] == [] && [a, b][1..] == [b] && [b][1..] == [];
    assert Insert([a], b, ValueIndex) == [a] + Insert([], b, ValueIndex) == [a, b];
    assert InsertAll([a], [b], ValueIndex) == InsertAll([a, b], [], ValueIndex) == [a, b];
    assert InsertAll([], [a, b], ValueIndex) == InsertAll([a], [b], ValueIndex);
  }

  /** The preformatted pass on two preformatted tokens pushes them and hands on two empty parts. */
  lemma PrefPassPair(a: TokenValue, b: TokenValue)
    requires a.kind == Preformatted && b.kind == Preformatted
    ensures PrefPass([[a, b]]) == Ok(Pass([a, b], [[], []]))
  {
    var s := [a, b];
    var none: Scope := [];
    PrefPassOne(s);
    assert NextPref(s, 0) == Some(0) && NextPref(s, 1) == Some(1);
    PrefRestPair(s, 0, 1);
    assert s[0] == a && s[1] == b && s[..0] == none && s[2..] == none;
    assert NextPref(none, 0).None?;
    PrefRestNone(none);
    assert PrefRest(Some(s)) == Then(Ok(Pass([a, b], [none])), Ok(Pass([], [none])));
    ThenOk(Ok(Pass([a, b], [none])), Ok(Pass([], [none])));
    assert Join(Pass([a, b], [none]), Pass([], [none])) == Pass([a, b], [none, none]);
  }

  /** The three passes on two preformatted tokens: the preformatted pass pushes them and hands on
      only empty parts, which the later passes drop. */
  lemma ResolvePrefPair(a: TokenValue, b: TokenValue)
    requires a.kind == Preformatted && b.kind == Preformatted
    ensures Resolve([a, b]) == Ok([a, b])
  {
    PrefPassPair(a, b);
    var empty: seq<Scope> := [[], []];
    assert empty[..1][..0] == [];
    assert ParagraphPass(empty) == Pass([], []);
    assert DelimPass([]) == Ok([]);
  }

  /** A text with no triple newline whose tokens are two preformatted tokens parses to them, over
      the text unchanged. */
  lemma ParsePrefPair(src: string, a: TokenValue, b: TokenValue)
    requires NoTriple(src) && Tokens(src) == [a, b]
    requires a.kind == Preformatted && b.kind == Preformatted && a.index < b.index
    ensures ParseSpec(src) == Ok(Parsed([a, b], src))
  {
    PreProcessIdentity(src);
    ResolvePrefPair(a, b);
    PushPair(a, b);
  }

  /** The three passes on one token that is not a paragraph token: it is unpaired, reported by the
      preformatted pass for a preformatted token and by the delimiter pass for a delimiter. */
  lemma ResolveLone(a: TokenValue)
    requires a.kind != Paragraph
    ensures Resolve([a]) == Err(Unpaired(a.kind, a.index))
  {
    var s := [a];
    PrefPassOne(s);
    if a.kind == Preformatted {
      assert NextPref(s, 0) == Some(0) && NextPref(s, 1) == None;
      PrefRestLone(s, 0);
    } else {
      assert NextPref(s, 0).None?;
      PrefRestNone(s);
      ParagraphPassWhole(s);
      assert DelimScope(s, 0) == Ok(Delim(None, []));
      DelimOpens(s, 0, []);
      if a.LeftFlanked() {
        DelimEnd(s, Some(0), []);
      } else {
        DelimEndErr(s, 1);
      }
      DelimPassOne(s);
    }
  }

  /** A text with no triple newline whose only token is not a paragraph token fails with that token
      unpaired. */
  lemma ParseLone(src: string, a: TokenValue)
    requires NoTriple(src) && Tokens(src) == [a] && a.kind != Paragraph
    ensures ParseSpec(src) == Err(Unpaired(a.kind, a.index))
  {
    PreProcessIdentity(src);
    ResolveLone(a);
  }

  /** The italic test: `_italic_` parses to its two italic tokens. */
  lemma ParseItalicExample(src: string)
    requires src == "_italic_"
    ensures ParseSpec(src) == Ok(Parsed([TokenValue(0, Italic, [Left]), TokenValue(7, Italic, [Right])], src))
  {
    TokensItalicExample(src);
    ParseDelimPair(src, TokenValue(0, Italic, [Left]), TokenValue(7, Italic, [Right]));
  }

  /** The bold test: `**bold**` parses to its two bold tokens. */
  lemma ParseBoldExample(src: string)
    requires src == "**bold**"
    ensures ParseSpec(src) == Ok(Parsed([TokenValue(0, Bold, [Left]), TokenValue(6, Bold, [Right])], src))
  {
    TokensBoldExample(src);
    ParseDelimPair(src, TokenValue(0, Bold, [Left]), TokenValue(6, Bold, [Right]));
  }

  /** The monospaced test: `` `monospaced` `` parses to its two monospaced tokens. */
  lemma ParseMonospacedExample(src: string)
    requires src == "`monospaced`"
    ensures ParseSpec(src) == Ok(Parsed([TokenValue(0, Monospaced, [Left]), TokenValue(11, Monospaced, [Right])], src))
  {
    TokensMonospacedExample(src);
    ParseDelimPair(src, TokenValue(0, Monospaced, [Left]), TokenValue(11, Monospaced, [Right]));
  }

  /** The preformatted test: ```` ```preformatted``` ```` parses to its two preformatted tokens. */
  lemma ParsePreformattedExample(src: string)
    requires src == "```preformatted```"
    ensures ParseSpec(src) == Ok(Parsed([TokenValue(0, Preformatted, []), TokenValue(15, Preformatted, [])], src))
  {
    TokensPreformattedExample(src);
    ParsePrefPair(src, TokenValue(0, Preformatted, []), TokenValue(15, Preformatted, []));
  }

  /** The unpaired bold texts of the compiler tests fail with their one bold token unpaired. */
  lemma ParseUnpairedBoldExample(src: string, at: nat)
    requires (src == "**bold" && at == 0) || (src == "bold**" && at == 4)
    ensures ParseSpec(src) == Err(Unpaired(Bold, at))
  {
    if at == 0 {
      TokensExample(src);
      ParseLone(src, TokenValue(0, Bold, [Left]));
    } else {
      TokensRightBoldExample(src);
      ParseLone(src, TokenValue(4, Bold, [Right]));
    }
  }

  /** The unpaired italic texts of the compiler tests fail with their one italic token unpaired. */
  lemma ParseUnpairedItalicExample(src: string, at: nat)
    requires (src == "_italic" && at == 0) || (src == "italic_" && at == 6)
    ensures ParseSpec(src) == Err(Unpaired(Italic, at))
  {
    if at == 0 {
      TokensLeftItalicExample(src);
      ParseLone(src, TokenValue(0, Italic, [Left]));
    } else {
      TokensRightItalicExample(src);
      ParseLone(src, TokenValue(6, Italic, [Right]));
    }
  }

  /** The unpaired monospaced texts of the compiler tests fail with their one monospaced token
      unpaired. */
  lemma ParseUnpairedMonospacedExample(src: string, at: nat)
    requires (src == "`monospaced" && at == 0) || (src == "monospaced`" && at == 10)
    ensures ParseSpec(src) == Err(Unpaired(Monospaced, at))
  {
    if at == 0 {
      TokensLeftMonospacedExample(src);
      ParseLone(src, TokenValue(0, Monospaced, [Left]));
    } else {
      TokensRightMonospacedExample(src);
      ParseLone(src, TokenValue(10, Monospaced, [Right]));
    }
  }

  /** The unpaired preformatted text of the compiler tests fails with its one token unpaired. */
  lemma ParseUnpairedPreformattedExample(src: string)
    requires src == "```preformatted"
    ensures ParseSpec(src) == Err(Unpaired(Preformatted, 0))
  {
    TokensUnpairedPreformattedExample(src);
    ParseLone(src, TokenValue(0, Preformatted, []));
  }

  /** An italic pair inside a bold pair is nested: closing the bold pair reports the italic closer,
      at its index as intended and at its position in the slice, 1, as written. */
  lemma ResolveInner(b0: nat, i0: nat, i1: nat, b1: nat)
    requires b0 < i0 < i1 < b1
    ensures var i, j := TokenValue(i0, Italic, [Left]), TokenValue(i1, Italic, [Right]);
      && Resolve([TokenValue(b0, Bold, [Left]), i, j, TokenValue(b1, Bold, [Right])]) == Err(Nested(Italic, i1))
      && NestedErrorAsWritten([i, j]) == Some(Nested(Italic, 1))
  {
    var b, c := TokenValue(b0, Bold, [Left]), TokenValue(b1, Bold, [Right]);
    var i, j := TokenValue(i0, Italic, [Left]), TokenValue(i1, Italic, [Right]);
    var s := [b, i, j, c];
    PrefPassOne(s);
    assert NextPref(s, 0).None?;
    PrefRestNone(s);
    ParagraphPassWhole(s);
    DelimInner(b, i, j, c);
    DelimPassOne(s);
    InnerNested(i, j);
  }

  /** The delimiter loop over an italic pair inside a bold pair: the bold opener opens, the italic
      tokens are passed over, and the bold closer finds them nested. */
  lemma DelimInner(b: TokenValue, i: TokenValue, j: TokenValue, c: TokenValue)
    requires b == TokenValue(b.index, Bold, [Left]) && c == TokenValue(c.index, Bold, [Right])
    requires i == TokenValue(i.index, Italic, [Left]) && j == TokenValue(j.index, Italic, [Right])
    requires b.index < i.index < j.index < c.index
    ensures DelimScopeEnd([b, i, j, c]) == Err(Nested(Italic, j.index))
  {
    var s := [b, i, j, c];
    assert DelimScope(s, 0) == Ok(Delim(None, []));
    DelimOpens(s, 0, []);
    DelimPasses(s, 1, 0, []);
    DelimPasses(s, 2, 0, []);
    IndexOfFirst(s, 0);
    IndexOfFirst(s, 3);
    assert Slice(s, 1, 3) == [i, j];
    InnerNested(i, j);
    DelimCloses(s, 3, 0, [], 0, 3, Some(Nested(Italic, j.index)));
    DelimEndErr(s, 4);
  }

  /** An italic opener followed by an italic closer is a nested pair of the italic type. */
  lemma InnerNested(i: TokenValue, j: TokenValue)
    requires i.kind == Italic && i.flanks == [Left] && j.kind == Italic && j.flanks == [Right]
    ensures NestedError([i, j]) == Some(Nested(Italic, j.index))
    ensures NestedErrorAsWritten([i, j]) == Some(Nested(Italic, 1))
  {
    var slice := [i, j];
    assert NextFlanked(slice, Bold, Left, 1) == None;
    assert NestedPair(slice, Bold) == None;
    assert NestedPair(slice, Italic) == Some(1);
    assert Delimiters[1..] == [Italic, Monospaced];
  }

  /** The nested text of the compiler tests, `**_nested_**`, fails: the italic pair inside the bold
      pair is reported at the index of its closer, 9. */
  lemma ParseInnerExample(src: string)
    requires src == "**_nested_**"
    ensures ParseSpec(src) == Err(Nested(Italic, 9))
  {
    TokensInnerExample(src);
    PreProcessIdentity(src);
    ResolveInner(0, 2, 9, 10);
  }

  /** The three passes on one paragraph token: the paragraph pass pushes it and cuts the scope into
      two empty parts, which the delimiter pass drops. */
  lemma ResolveParagraph(t: TokenValue)
    requires t.kind == Paragraph
    ensures Resolve([t]) == Ok([t])
  {
    var s := [t];
    var none: Scope := [];
    PrefPassOne(s);
    assert NextPref(s, 0).None?;
    PrefRestNone(s);
    assert ParagraphIndexes(s, 1) == [0];
    ParagraphScopeOne(s, 0);
    assert s[..0] == none && s[1..] == none;
    var one: seq<Scope> := [s];
    assert one[..0] == [];
    assert ParagraphPass(one) == Pass([t], [none, none]);
    var empty: seq<Scope> := [none, none];
    var first: seq<Scope> := [none];
    assert empty[..1] == first && first[..0] == [];
    assert DelimPass(first) == Ok([]);
    assert DelimPass(empty) == Ok([]);
    assert [] + [t] + [] == [t];
  }

  /** A text with no triple newline whose only token is a paragraph token parses to it, over the
      text unchanged. */
  lemma ParseParagraph(src: string, t: TokenValue)
    requires NoTriple(src) && Tokens(src) == [t] && t.kind == Paragraph
    ensures ParseSpec(src) == Ok(Parsed([t], src))
  {
    PreProcessIdentity(src);
    ResolveParagraph(t);
    PushOne(t);
  }

  /** Pushing one token into an empty list gives that token. */
  lemma PushOne(t: TokenValue)
    ensures InsertAll([], [t], ValueIndex) == [t]
  {
    assert InsertAll([], [t], ValueIndex) == InsertAll([t], [], ValueIndex);
  }

  /** The paragraph text of the compiler tests, `paragraph1\n\nparagraph2`, parses to its one
      paragraph token. */
  lemma ParseTwoParagraphsExample(src: string)
    requires src == "paragraph1\n\nparagraph2"
    ensures ParseSpec(src) == Ok(Parsed([TokenValue(10, Paragraph, [])], src))
  {
    TokensTwoParagraphsExample(src);
    ParseParagraph(src, TokenValue(10, Paragraph, []));
  }
}
