/** lib/core/constants.js: the markup kinds, their recognition patterns, marker widths and the two
    decoration tables. */
module Constants {

  /** `TYPES`, in declaration order. */
  datatype Kind = Bold | Italic | Monospaced | Preformatted | Paragraph

  /** `FLANKS`, and `NoFlank` for the empty label that the plain patterns are run with. */
  datatype Flank = Left | Right | NoFlank

  /** `Object.values(TYPES)`. */
  const Types: seq<Kind> := [Bold, Italic, Monospaced, Preformatted, Paragraph]

  /** `DELIMETERS`: the kinds that are flanked, paired and checked for nesting. */
  const Delimiters: seq<Kind> := [Bold, Italic, Monospaced]

  predicate IsDelimiter(k: Kind) {
    k in Delimiters
  }

  // ------------------------------------------------------- character classes

  /** `\p{Z}`: the space separators, the line separator and the paragraph separator. */
  predicate IsSeparator(c: char) {
    || c == ' ' || c == '\U{A0}' || c == '\U{1680}' || ('\U{2000}' <= c <= '\U{200A}')
    || c == '\U{2028}' || c == '\U{2029}' || c == '\U{202F}' || c == '\U{205F}' || c == '\U{3000}'
  }

  /** `\p{P}` on ASCII: connector, dash, open, close and other punctuation. `$ + < = > ^ ` | ~` are
      symbols, not punctuation. */
  predicate IsPunctuation(c: char) {
    || c == '!' || c == '"' || c == '#' || c == '%' || c == '&' || c == '\'' || c == '(' || c == ')'
    || c == '*' || c == ',' || c == '-' || c == '.' || c == '/' || c == ':' || c == ';' || c == '?'
    || c == '@' || c == '[' || c == '\\' || c == ']' || c == '_' || c == '{' || c == '}'
  }

  /** `\p{L}` on ASCII. */
  predicate IsLetter(c: char) {
    ('a' <= c <= 'z') || ('A' <= c <= 'Z')
  }

  /** `\p{N}` on ASCII. */
  predicate IsNumber(c: char) {
    '0' <= c <= '9'
  }

  /** The characters after which `^` and before which `$` match in multiline mode. */
  predicate IsLineTerminator(c: char) {
    c == '\n' || c == '\r' || c == '\U{2028}' || c == '\U{2029}'
  }

  /** `^` with the `m` flag matches at position `i`. */
  predicate LineStart(s: string, i: nat)
    requires i <= |s|
  {
    i == 0 || IsLineTerminator(s[i - 1])
  }

  /** `$` with the `m` flag matches at position `j`. */
  predicate LineEnd(s: string, j: nat)
    requires j <= |s|
  {
    j == |s| || IsLineTerminator(s[j])
  }

  // ---------------------------------------------------------------- flanks

  /** `[\p{Z}\p{P}`]`. */
  predicate SpaceOrPunctOrTick(c: char) {
    IsSeparator(c) || IsPunctuation(c) || c == '`'
  }

  /** `\p{L}|\p{N}|[^\P{P}x]|``: a letter, a number, punctuation other than the marker's own
      character `self`, or the backtick. */
  predicate WordPunctOrTick(c: char, self: char) {
    IsLetter(c) || IsNumber(c) || (IsPunctuation(c) && c != self) || c == '`'
  }

  /** First alternative of every left rule, `(?<=\p{Z}|^)M(?![\p{Z}\p{P}`])`, for a marker `M`
      written at `s[i..j]`. */
  predicate OpensAfterSpace(s: string, i: nat, j: nat)
    requires i <= j <= |s|
  {
    (LineStart(s, i) || IsSeparator(s[i - 1])) && !(j < |s| && SpaceOrPunctOrTick(s[j]))
  }

  /** First alternative of every right rule, `(?<![\p{Z}\p{P}`]|^)M(?=\p{Z}|$)`. */
  predicate ClosesBeforeSpace(s: string, i: nat, j: nat)
    requires i <= j <= |s|
  {
    !LineStart(s, i) && !SpaceOrPunctOrTick(s[i - 1]) && (LineEnd(s, j) || IsSeparator(s[j]))
  }

  /** Left rule of bold and italic (constants.js:23, 31). */
  predicate EmphasisLeft(s: string, i: nat, j: nat, self: char)
    requires i <= j <= |s|
  {
    || OpensAfterSpace(s, i, j)
    || ((LineStart(s, i) || SpaceOrPunctOrTick(s[i - 1])) && j < |s| && WordPunctOrTick(s[j], self))
  }

  /** Right rule of bold and italic (constants.js:24-25, 32-33). */
  predicate EmphasisRight(s: string, i: nat, j: nat, self: char)
    requires i <= j <= |s|
  {
    || ClosesBeforeSpace(s, i, j)
    || (0 < i && WordPunctOrTick(s[i - 1], self) && (LineEnd(s, j) || SpaceOrPunctOrTick(s[j])))
  }

  /** Left rule of monospaced (constants.js:39): the second alternative leaves the backtick out. */
  predicate CodeLeft(s: string, i: nat, j: nat)
    requires i <= j <= |s|
  {
    || OpensAfterSpace(s, i, j)
    || ((LineStart(s, i) || IsSeparator(s[i - 1]) || IsPunctuation(s[i - 1])) && j < |s| &&
        (IsPunctuation(s[j]) || IsLetter(s[j]) || IsNumber(s[j])))
  }

  /** Right rule of monospaced (constants.js:40-41). */
  predicate CodeRight(s: string, i: nat, j: nat)
    requires i <= j <= |s|
  {
    || ClosesBeforeSpace(s, i, j)
    || (0 < i && (IsPunctuation(s[i - 1]) || IsLetter(s[i - 1]) || IsNumber(s[i - 1])) &&
        (LineEnd(s, j) || IsSeparator(s[j]) || IsPunctuation(s[j])))
  }

  // ------------------------------------------------------- markers, patterns

  /** `MARKING`. */
  function Marking(k: Kind): (m: string)
    ensures 0 < |m|
  {
    match k
    case Bold => "**"
    case Italic => "_"
    case Monospaced => "`"
    case Preformatted => "```"
    case Paragraph => "\n\n"
  }

  /** The literal part of the pattern of `k` matches at position `i`: `\*{2}`, `_`, `` ` ``,
      `` `{3} `` or `\n{2}`. */
  predicate MarkerAt(k: Kind, s: string, i: nat) {
    match k
    case Bold => i + 1 < |s| && s[i] == '*' && s[i + 1] == '*'
    case Italic => i < |s| && s[i] == '_'
    case Monospaced => i < |s| && s[i] == '`'
    case Preformatted => i + 2 < |s| && s[i] == '`' && s[i + 1] == '`' && s[i + 2] == '`'
    case Paragraph => i + 1 < |s| && s[i] == '\n' && s[i + 1] == '\n'
  }

  /** One entry of `PATTERNS`: a delimiter with a left and a right regex, or a single plain regex. */
  datatype Pattern = Flanked(kind: Kind) | Plain(kind: Kind)

  /** `PATTERNS`, in the order the tokenizer runs them. */
  const Patterns: seq<Pattern> :=
    [Flanked(Bold), Flanked(Italic), Flanked(Monospaced), Plain(Preformatted), Plain(Paragraph)]

  /** The labels a pattern is run under: `Object.entries(rx)` of a flanked one, `['']` of a plain one. */
  function PatternFlanks(p: Pattern): seq<Flank> {
    match p
    case Flanked(_) => [Left, Right]
    case Plain(_) => [NoFlank]
  }

  /** The regex of `kind` run under label `flank` matches at position `i` of `s`, lookarounds included. */
  predicate PatternAt(kind: Kind, flank: Flank, s: string, i: nat) {
    && MarkerAt(kind, s, i)
    && var j := i + |Marking(kind)|;
       match kind
       case Bold => (flank == Left && EmphasisLeft(s, i, j, '*')) || (flank == Right && EmphasisRight(s, i, j, '*'))
       case Italic => (flank == Left && EmphasisLeft(s, i, j, '_')) || (flank == Right && EmphasisRight(s, i, j, '_'))
       case Monospaced => (flank == Left && CodeLeft(s, i, j)) || (flank == Right && CodeRight(s, i, j))
       case Preformatted => flank == NoFlank
       case Paragraph => flank == NoFlank
  }

  /** The literal part of each pattern is the kind's marker, whose widths are 2, 1, 1, 3 and 2. */
  lemma MarkerAtMarking(k: Kind, s: string, i: nat)
    ensures MarkerAt(k, s, i) <==> i + |Marking(k)| <= |s| && s[i..i + |Marking(k)|] == Marking(k)
    ensures |Marking(Bold)| == 2 && |Marking(Italic)| == 1 && |Marking(Monospaced)| == 1
    ensures |Marking(Preformatted)| == 3 && |Marking(Paragraph)| == 2
  {
    var w := |Marking(k)|;
    if i + w <= |s| && s[i..i + w] == Marking(k) {
      assert s[i] == s[i..i + w][0];
      if w > 1 { assert s[i + 1] == s[i..i + w][1]; }
      if w > 2 { assert s[i + 2] == s[i..i + w][2]; }
    }
  }

  /** Only the delimiters are flanked; preformatted and paragraph are plain literals; every kind
      has a compiler. */
  lemma FlankedAreDelimiters()
    ensures forall p :: p in Patterns ==> (p.Flanked? <==> IsDelimiter(p.kind))
    ensures forall k: Kind :: k in Types
  {
    forall p | p in Patterns ensures p.Flanked? <==> IsDelimiter(p.kind) {
      assert p == Patterns[0] || p == Patterns[1] || p == Patterns[2] || p == Patterns[3] || p == Patterns[4];
    }
    forall k: Kind ensures k in Types {
      assert k == Types[0] || k == Types[1] || k == Types[2] || k == Types[3] || k == Types[4];
    }
  }

  /** A delimiter opens only when it is not followed by a separator, and closes only when it is not
      preceded by one. */
  lemma FlankNotFacingSpace(k: Kind, s: string, i: nat)
    requires IsDelimiter(k)
    ensures PatternAt(k, Left, s, i) && i + |Marking(k)| < |s| ==> !IsSeparator(s[i + |Marking(k)|])
    ensures PatternAt(k, Right, s, i) && 0 < i ==> !IsSeparator(s[i - 1])
  {
  }

  /** A delimiter between two letters or digits is neither left- nor right-flanked (`snake_case`,
      `2**2`, `d`Arc`). */
  lemma IntrawordNotFlanked(k: Kind, f: Flank, s: string, i: nat)
    requires IsDelimiter(k) && 0 < i && i + |Marking(k)| < |s|
    requires IsLetter(s[i - 1]) || IsNumber(s[i - 1])
    requires IsLetter(s[i + |Marking(k)|]) || IsNumber(s[i + |Marking(k)|])
    ensures !PatternAt(k, f, s, i)
  {
  }

  /** No position is matched by the patterns of two different kinds: the markers differ, and a
      monospaced backtick is never next to another backtick. */
  lemma PatternsExclusive(k1: Kind, f1: Flank, k2: Kind, f2: Flank, s: string, i: nat)
    requires PatternAt(k1, f1, s, i) && PatternAt(k2, f2, s, i)
    ensures k1 == k2
  {
  }

  // ------------------------------------------------------- decoration tables

  /** The two output formats. */
  datatype Format = Html | Ansi

  /** `HTML_MAP`. */
  function HtmlMap(k: Kind): seq<string> {
    match k
    case Bold => ["<strong>", "</strong>"]
    case Italic => ["<i>", "</i>"]
    case Monospaced => ["<tt>", "</tt>"]
    case Paragraph => ["</p><p>", "</p><p>", "<p>", "</p>"]
    case Preformatted => ["<pre>", "</pre>"]
  }

  /** `ANSI_MAP`: SGR bold, italic and reverse video; no document wrap. */
  function AnsiMap(k: Kind): seq<string> {
    match k
    case Bold => ["\U{1B}[1m", "\U{1B}[22m"]
    case Italic => ["\U{1B}[3m", "\U{1B}[23m"]
    case Monospaced => ["\U{1B}[7m", "\U{1B}[27m"]
    case Paragraph => ["\n\n", "\n\n", "", ""]
    case Preformatted => ["\U{1B}[7m", "\U{1B}[27m"]
  }

  /** The decoration table of a format. */
  function Mapping(f: Format, k: Kind): (m: seq<string>)
    ensures |m| == if k == Paragraph then 4 else 2
  {
    match f
    case Html => HtmlMap(k)
    case Ansi => AnsiMap(k)
  }

  /** Paired kinds map to (open, close); paragraph to (boundary, boundary, document open, document
      close) with the same boundary twice; the ANSI boundary is the paragraph marker itself and its
      document wrap is empty. */
  lemma DecorationShapes(f: Format, k: Kind)
    ensures |Mapping(f, k)| == if k == Paragraph then 4 else 2
    ensures Mapping(f, Paragraph)[0] == Mapping(f, Paragraph)[1]
    ensures Mapping(Html, Paragraph) == ["</p><p>", "</p><p>", "<p>", "</p>"]
    ensures Mapping(Ansi, Paragraph)[0] == Marking(Paragraph)
    ensures Mapping(Ansi, Paragraph)[2] == "" && Mapping(Ansi, Paragraph)[3] == ""
  {
  }
}
