/** The scanner's pattern tables (parser.js:24-127), written as character
    predicates instead of regular expressions, and the pure specifications of
    the three scanning loops: first-match token lookup, the whitespace and
    comment run that follows each token, and the quoted-literal body scan. */
module Lexer {
  import opened Base

  predicate IsDigit(c: char) { '0' <= c <= '9' }

  predicate IsAlpha(c: char) { 'a' <= c <= 'z' || 'A' <= c <= 'Z' }

  /** `[a-zA-Z$_]` */
  predicate IsIdentStart(c: char) { IsAlpha(c) || c == '$' || c == '_' }

  /** `[a-zA-Z0-9$_]` */
  predicate IsIdentPart(c: char) { IsIdentStart(c) || IsDigit(c) }

  /** `\w`, the class a `\b` word boundary tests; unlike identifiers it has no `$`. */
  predicate IsWordChar(c: char) { IsAlpha(c) || IsDigit(c) || c == '_' }

  /** The characters a regular-expression `.` refuses to match. */
  predicate IsLineTerminator(c: char) {
    c == '\n' || c == '\r' || c == '\U{2028}' || c == '\U{2029}'
  }

  /** `\s`: white space and line terminators, as JavaScript defines them. */
  predicate IsSpace(c: char) {
    || c == '\t' || c == '\U{000B}' || c == '\U{000C}' || c == ' '
    || c == '\U{00A0}' || c == '\U{FEFF}' || c == '\U{1680}'
    || ('\U{2000}' <= c <= '\U{200A}')
    || c == '\U{202F}' || c == '\U{205F}' || c == '\U{3000}'
    || IsLineTerminator(c)
  }

  predicate StartsWith(s: string, p: string) {
    |p| <= |s| && s[..|p|] == p
  }

  // ---------------------------------------------------------------------
  // Runs of characters

  /** Length of the longest prefix of `s` made of digits. */
  function DigitRun(s: string): (n: nat)
    ensures n <= |s|
  {
    if s != [] && IsDigit(s[0]) then 1 + DigitRun(s[1..]) else 0
  }

  /** The run is the longest prefix of such characters. */
  lemma {:induction false} DigitRunSpec(s: string)
    ensures forall i :: 0 <= i < DigitRun(s) ==> IsDigit(s[i])
    ensures DigitRun(s) == |s| || !IsDigit(s[DigitRun(s)])
  {
    if s != [] && IsDigit(s[0]) {
      DigitRunSpec(s[1..]);
    }
  }

  /** Length of the longest prefix of `s` made of identifier characters. */
  function IdentPartRun(s: string): (n: nat)
    ensures n <= |s|
  {
    if s != [] && IsIdentPart(s[0]) then 1 + IdentPartRun(s[1..]) else 0
  }

  /** The run is the longest prefix of such characters. */
  lemma {:induction false} IdentPartRunSpec(s: string)
    ensures forall i :: 0 <= i < IdentPartRun(s) ==> IsIdentPart(s[i])
    ensures IdentPartRun(s) == |s| || !IsIdentPart(s[IdentPartRun(s)])
  {
    if s != [] && IsIdentPart(s[0]) {
      IdentPartRunSpec(s[1..]);
    }
  }

  /** Length of the longest prefix of `s` with no line terminator (what `.*` takes). */
  function LineRun(s: string): (n: nat)
    ensures n <= |s|
  {
    if s != [] && !IsLineTerminator(s[0]) then 1 + LineRun(s[1..]) else 0
  }

  /** The run is the longest prefix of such characters. */
  lemma {:induction false} LineRunSpec(s: string)
    ensures forall i :: 0 <= i < LineRun(s) ==> !IsLineTerminator(s[i])
    ensures LineRun(s) == |s| || IsLineTerminator(s[LineRun(s)])
  {
    if s != [] && !IsLineTerminator(s[0]) {
      LineRunSpec(s[1..]);
    }
  }

  /** Length of the longest prefix of `s` made of `\s` characters. */
  function SpaceRun(s: string): (n: nat)
    ensures n <= |s|
  {
    if s != [] && IsSpace(s[0]) then 1 + SpaceRun(s[1..]) else 0
  }

  /** The run is the longest prefix of such characters. */
  lemma {:induction false} SpaceRunSpec(s: string)
    ensures forall i :: 0 <= i < SpaceRun(s) ==> IsSpace(s[i])
    ensures SpaceRun(s) == |s| || !IsSpace(s[SpaceRun(s)])
  {
    if s != [] && IsSpace(s[0]) {
      SpaceRunSpec(s[1..]);
    }
  }

  // ---------------------------------------------------------------------
  // The token table (parser.js:24-120)

  /** One entry of the scanner's ordered token table. */
  datatype Entry =
    | Literal(lit: string)   // an `eq:` entry: the fixed string itself
    | NumberRule             // `[0-9]+(\.[0-9]+)?`, kind NUMBER
    | WordRule(word: string) // `word\b`, the kind is the word
    | IdentRule              // `[a-zA-Z$_][a-zA-Z0-9$_]*`, kind IDENT

  /** The table in the source's order, duplicates (`==`, `-`) included: the
      number rule and the fixed operator strings, the reserved words, the
      identifier rule and the two pragma words. */
  const Table: seq<Entry> :=
    LongOperatorEntries + ShortOperatorEntries + KeywordEntries + FutureEntries + PragmaEntries

  /** The number rule, then the operators of more than one character. */
  const LongOperatorEntries: seq<Entry> := [
    NumberRule,
    Literal("==="), Literal("!=="), Literal("..."), Literal("->"),
    Literal("=="), Literal("!="), Literal("+="), Literal("-="), Literal("*="),
    Literal("/="), Literal("%="), Literal("||"), Literal("&&"), Literal("<="),
    Literal(">="), Literal("=="), Literal("::")
  ]

  /** The one-character operators and punctuation. */
  const ShortOperatorEntries: seq<Entry> := [
    Literal("*"), Literal("/"),
    Literal("-"), Literal("+"), Literal("!"), Literal("("), Literal(")"),
    Literal("{"), Literal("}"), Literal("["), Literal("]"), Literal("<"),
    Literal(">"), Literal("."), Literal(","), Literal(";"), Literal(":"),
    Literal("^"), Literal("="), Literal("%"), Literal("-"), Literal("\""),
    Literal("'"), Literal("@"), Literal("?")
  ]

  const KeywordEntries: seq<Entry> := [
    WordRule("break"), WordRule("case"), WordRule("catch"), WordRule("continue"),
    WordRule("debugger"), WordRule("default"), WordRule("delete"), WordRule("do"),
    WordRule("else"), WordRule("finally"), WordRule("for"), WordRule("function"),
    WordRule("if"), WordRule("in"), WordRule("instanceof"), WordRule("new"),
    WordRule("return"), WordRule("switch"), WordRule("this"), WordRule("throw"),
    WordRule("try"), WordRule("typeof"), WordRule("var"), WordRule("void"),
    WordRule("while"), WordRule("with"),
    WordRule("null"), WordRule("true"), WordRule("false")
  ]

  const FutureEntries: seq<Entry> := [
    WordRule("class"), WordRule("enum"), WordRule("export"), WordRule("extend"),
    WordRule("import"), WordRule("super"),
    WordRule("implements"), WordRule("interface"), WordRule("let"), WordRule("package"),
    WordRule("private"), WordRule("protected"), WordRule("public"), WordRule("static"),
    WordRule("yield")
  ]

  const PragmaEntries: seq<Entry> := [
    IdentRule, WordRule("#include"), WordRule("#declare")
  ]

  /** `[0-9]+(\.[0-9]+)?`: the fraction is taken only when a digit follows the dot. */
  function NumberLen(s: string): nat {
    var d := DigitRun(s);
    if d == 0 then 0
    else if d < |s| && s[d] == '.' && DigitRun(s[d + 1..]) > 0 then d + 1 + DigitRun(s[d + 1..])
    else d
  }

  function IdentLen(s: string): nat {
    if s != [] && IsIdentStart(s[0]) then 1 + IdentPartRun(s[1..]) else 0
  }

  /** `word\b` where the word ends in a word character: the word, then no word character. */
  predicate WordAt(s: string, w: string) {
    StartsWith(s, w) && (|s| == |w| || !IsWordChar(s[|w|]))
  }

  /** How many characters entry `e` matches at the start of `s`; 0 when it does not match. */
  function MatchLen(e: Entry, s: string): (n: nat)
    ensures n <= |s|
  {
    match e
    case Literal(lit) => if StartsWith(s, lit) then |lit| else 0
    case NumberRule => NumberLen(s)
    case WordRule(w) => if WordAt(s, w) then |w| else 0
    case IdentRule => IdentLen(s)
  }

  /** The token type an entry gives to the text it matched. */
  function KindOf(e: Entry): string {
    match e
    case Literal(lit) => lit
    case NumberRule => "NUMBER"
    case WordRule(w) => w
    case IdentRule => "IDENT"
  }

  /** No entry of `tab` before number `j` matches at the start of `s`. */
  predicate NoMatchBelow(tab: seq<Entry>, s: string, j: nat)
    requires j <= |tab|
  {
    j == 0 || (NoMatchBelow(tab, s, j - 1) && MatchLen(tab[j - 1], s) == 0)
  }

  /** Index of the first entry at or after `i` that matches at the start of `s`. */
  function FirstMatch(tab: seq<Entry>, s: string, i: nat): (r: Option<nat>)
    requires i <= |tab|
    ensures r.Some? ==> i <= r.value < |tab| && MatchLen(tab[r.value], s) > 0
    decreases |tab| - i
  {
    if i == |tab| then None
    else if MatchLen(tab[i], s) > 0 then Some(i)
    else FirstMatch(tab, s, i + 1)
  }

  /** A lexeme: its token type and the number of characters it covers. */
  datatype Lexeme = Lexeme(kind: string, len: nat)

  /** What `findToken` recognises at the start of `s` with token table `tab`: the first
      matching entry. */
  function Scan(tab: seq<Entry>, s: string): (r: Option<Lexeme>)
    ensures r.Some? ==> 1 <= r.value.len <= |s|
    ensures r.Some? ==> r.value.kind in {"NUMBER", "IDENT"} || s[..r.value.len] == r.value.kind
  {
    match FirstMatch(tab, s, 0)
    case None => None
    case Some(j) => Some(Lexeme(KindOf(tab[j]), MatchLen(tab[j], s)))
  }

  /** No entry of `tab` gives its match the type EOF, which `next` keeps for the end
      of the text. */
  predicate NoEofEntry(tab: seq<Entry>) {
    forall j :: 0 <= j < |tab| ==> KindOf(tab[j]) != "EOF"
  }

  lemma NoEofEntryAppend(a: seq<Entry>, b: seq<Entry>)
    requires NoEofEntry(a) && NoEofEntry(b)
    ensures NoEofEntry(a + b)
  {
    forall j | 0 <= j < |a + b|
      ensures KindOf((a + b)[j]) != "EOF"
    {
      if j >= |a| {
        assert (a + b)[j] == b[j - |a|];
      }
    }
  }

  lemma LongOperatorsNoEof() ensures NoEofEntry(LongOperatorEntries) {}
  lemma ShortOperatorsNoEof() ensures NoEofEntry(ShortOperatorEntries) {}
  lemma KeywordsNoEof() ensures NoEofEntry(KeywordEntries) {}
  lemma FutureWordsNoEof() ensures NoEofEntry(FutureEntries) {}
  lemma PragmaWordsNoEof() ensures NoEofEntry(PragmaEntries) {}

  /** The table never produces an EOF token: that type means the text has ended. */
  lemma TableNoEof()
    ensures NoEofEntry(Table)
  {
    LongOperatorsNoEof();
    ShortOperatorsNoEof();
    KeywordsNoEof();
    FutureWordsNoEof();
    PragmaWordsNoEof();
    NoEofEntryAppend(LongOperatorEntries, ShortOperatorEntries);
    NoEofEntryAppend(LongOperatorEntries + ShortOperatorEntries, KeywordEntries);
    NoEofEntryAppend(LongOperatorEntries + ShortOperatorEntries + KeywordEntries, FutureEntries);
    NoEofEntryAppend(LongOperatorEntries + ShortOperatorEntries + KeywordEntries + FutureEntries, PragmaEntries);
  }

  /** `NoMatchBelow` means what it says: each entry below `j` fails to match. */
  lemma {:induction false} NoMatchBelowAt(tab: seq<Entry>, s: string, j: nat, k: nat)
    requires k < j <= |tab| && NoMatchBelow(tab, s, j)
    ensures MatchLen(tab[k], s) == 0
    decreases j
  {
    if k < j - 1 {
      NoMatchBelowAt(tab, s, j - 1, k);
    }
  }

  /** The first match from `i` on, when it exists, has no match before it. */
  lemma {:induction false} FirstMatchIsFirst(tab: seq<Entry>, s: string, i: nat)
    requires i <= |tab| && NoMatchBelow(tab, s, i)
    ensures FirstMatch(tab, s, i).Some? ==> NoMatchBelow(tab, s, FirstMatch(tab, s, i).value)
    ensures FirstMatch(tab, s, i).None? ==> NoMatchBelow(tab, s, |tab|)
    decreases |tab| - i
  {
    if i < |tab| && MatchLen(tab[i], s) == 0 {
      FirstMatchIsFirst(tab, s, i + 1);
    }
  }

  /** Whatever index meets the first-match conditions is the one FirstMatch finds. */
  lemma {:induction false} FirstMatchUnique(tab: seq<Entry>, s: string, i: nat, j: nat)
    requires i <= j < |tab| && MatchLen(tab[j], s) > 0 && NoMatchBelow(tab, s, j)
    ensures FirstMatch(tab, s, i) == Some(j)
    decreases j - i
  {
    if i < j {
      NoMatchBelowAt(tab, s, j, i);
      FirstMatchUnique(tab, s, i + 1, j);
    }
  }

  /** Scanning fails exactly when no entry of the table matches. */
  lemma ScanNone(tab: seq<Entry>, s: string)
    ensures Scan(tab, s).None? <==> NoMatchBelow(tab, s, |tab|)
  {
    FirstMatchIsFirst(tab, s, 0);
    if NoMatchBelow(tab, s, |tab|) && FirstMatch(tab, s, 0).Some? {
      NoMatchBelowAt(tab, s, |tab|, FirstMatch(tab, s, 0).value);
    }
  }

  /** An entry that matches with no match before it gives the lexeme. */
  lemma ScanFound(tab: seq<Entry>, s: string, j: nat)
    requires j < |tab| && NoMatchBelow(tab, s, j) && MatchLen(tab[j], s) > 0
    ensures Scan(tab, s) == Some(Lexeme(KindOf(tab[j]), MatchLen(tab[j], s)))
  {
    FirstMatchUnique(tab, s, 0, j);
  }

  /** The first six entries: the number rule, then the three- and two-character
      operators that share a first character with a shorter one. */
  lemma TableHead()
    ensures Table[0] == NumberRule && Table[1] == Literal("===") && Table[2] == Literal("!==")
    ensures Table[3] == Literal("...") && Table[4] == Literal("->") && Table[5] == Literal("==")
  {
    var a := LongOperatorEntries;
    assert |a| == 18;
    assert a[0] == NumberRule && a[1] == Literal("===") && a[2] == Literal("!==");
    assert a[3] == Literal("...") && a[4] == Literal("->") && a[5] == Literal("==");
    var rest := ShortOperatorEntries + KeywordEntries + FutureEntries + PragmaEntries;
    assert Table == a + rest;
  }

  /** `===` is taken whole: it is found before `==` and `=`. */
  lemma ScanStrictEquality(s: string)
    requires StartsWith(s, "===")
    ensures Scan(Table, s) == Some(Lexeme("===", 3))
  {
    TableHead();
    assert s[0] == '=';
    assert MatchLen(Table[0], s) == 0;
    FirstMatchUnique(Table, s, 0, 1);
  }

  /** `==` not followed by `=` is one `==` token, not two `=` tokens. */
  lemma ScanLooseEquality(s: string)
    requires StartsWith(s, "==") && !StartsWith(s, "===")
    ensures Scan(Table, s) == Some(Lexeme("==", 2))
  {
    TableHead();
    assert s[0] == '=';
    assert MatchLen(NumberRule, s) == 0;
    assert MatchLen(Literal("==="), s) == 0;
    NoLiteralAt(s, "!==");
    NoLiteralAt(s, "...");
    NoLiteralAt(s, "->");
    assert NoMatchBelow(Table, s, 1) && NoMatchBelow(Table, s, 2);
    assert NoMatchBelow(Table, s, 3) && NoMatchBelow(Table, s, 4);
    FirstMatchUnique(Table, s, 0, 5);
  }

  /** A fixed string does not match text that starts with a different character. */
  lemma NoLiteralAt(s: string, lit: string)
    requires s != [] && lit != [] && s[0] != lit[0]
    ensures MatchLen(Literal(lit), s) == 0
  {
  }

  // ---------------------------------------------------------------------
  // Whitespace and comments (parser.js:122-127)

  /** Length of the shortest prefix of `t` that ends in `*\/`; 0 when there is none. */
  function CommentClose(t: string): (n: nat)
    ensures n == 0 || (2 <= n <= |t| && t[n - 2] == '*' && t[n - 1] == '/')
  {
    if |t| < 2 then 0
    else if t[0] == '*' && t[1] == '/' then 2
    else
      var r := CommentClose(t[1..]);
      if r == 0 then 0 else r + 1
  }

  /** Length each whitespace pattern matches at the start of `s` (0: no match), in table order. */
  function SpaceMatch(s: string): nat { SpaceRun(s) }

  function LineCommentMatch(s: string): nat {
    if |s| >= 2 && s[0] == '/' && s[1] == '/' then 2 + LineRun(s[2..]) else 0
  }

  function BlockCommentMatch(s: string): nat {
    if |s| >= 2 && s[0] == '/' && s[1] == '*' && CommentClose(s[2..]) > 0 then 2 + CommentClose(s[2..]) else 0
  }

  function ShebangMatch(s: string): nat {
    if |s| >= 2 && s[0] == '#' && s[1] == '!' && LineRun(s[2..]) > 0 then 2 + LineRun(s[2..]) else 0
  }

  /** The whitespace pattern number `i` (0 to 3), in the source's table order. */
  function WsPattern(i: nat, s: string): (n: nat)
    requires i < 4
    ensures n <= |s|
  {
    if i == 0 then SpaceMatch(s)
    else if i == 1 then LineCommentMatch(s)
    else if i == 2 then BlockCommentMatch(s)
    else ShebangMatch(s)
  }

  /** Length of the first whitespace pattern from number `i` on that matches at the
      start of `s`; 0 if none does. `FirstWs(s, 0)` is the match `findWhitespace` takes. */
  function FirstWs(s: string, i: nat): (n: nat)
    requires i <= 4
    ensures n <= |s|
    decreases 4 - i
  {
    if i == 4 then 0
    else if WsPattern(i, s) > 0 then WsPattern(i, s)
    else FirstWs(s, i + 1)
  }

  /** The whole run of whitespace and comments `findWhitespace` consumes from `s`:
      a prefix of `s` after which no whitespace pattern matches. */
  function WsRun(s: string): (ws: string)
    ensures |ws| <= |s|
    decreases |s|
  {
    var n := FirstWs(s, 0);
    if n == 0 then "" else s[..n] + WsRun(s[n..])
  }

  /** The run is a prefix of the text, and no whitespace pattern matches after it. */
  lemma {:induction false} WsRunIsPrefix(s: string)
    ensures StartsWith(s, WsRun(s))
    ensures FirstWs(s[|WsRun(s)|..], 0) == 0
    decreases |s|
  {
    var n := FirstWs(s, 0);
    if n > 0 {
      WsRunIsPrefix(s[n..]);
      PrefixThen(s, n, WsRun(s[n..]));
    }
  }

  /** A prefix of `s` followed by a prefix of what remains is a prefix of `s`. */
  lemma PrefixThen(s: string, n: nat, rest: string)
    requires n <= |s| && StartsWith(s[n..], rest)
    ensures StartsWith(s, s[..n] + rest)
    ensures s[|s[..n] + rest|..] == s[n..][|rest|..]
  {
    assert s[..n + |rest|] == s[..n] + s[n..][..|rest|];
  }

  /** Text that starts with something other than whitespace or a comment has an empty run. */
  lemma WsRunEmpty(s: string)
    requires s != [] && !IsSpace(s[0]) && s[0] != '/' && s[0] != '#'
    ensures WsRun(s) == ""
  {
  }

  /** A run and what follows it: scanning the concatenation of a run and the rest reads the run. */
  lemma {:induction false} WsRunIdempotent(s: string)
    ensures WsRun(s[|WsRun(s)|..]) == ""
  {
    WsRunIsPrefix(s);
  }

  // ---------------------------------------------------------------------
  // Quoted literals (parser.js:148-170)

  /** How many characters of `s` the quoted-literal scan consumes, closing quote included:
      a backslash skips the character after it; `None` when the input ends first. */
  function StringEnd(s: string, quote: char): (r: Option<nat>)
    ensures r.Some? ==> 1 <= r.value <= |s| && s[r.value - 1] == quote
    decreases |s|
  {
    if s == [] then None
    else if s[0] == '\\' then
      (if |s| < 2 then None
       else match StringEnd(s[2..], quote)
         case None => None
         case Some(n) => Some(n + 2))
    else if s[0] == quote then Some(1)
    else match StringEnd(s[1..], quote)
      case None => None
      case Some(n) => Some(n + 1)
  }

  /** Text that holds no quote character has no closing quote: the scan runs away. */
  lemma {:induction false} StringEndNoQuote(s: string, quote: char)
    requires forall i :: 0 <= i < |s| ==> s[i] != quote
    ensures StringEnd(s, quote).None?
    decreases |s|
  {
    if s != [] {
      if s[0] == '\\' {
        if |s| >= 2 {
          StringEndNoQuote(s[2..], quote);
        }
      } else {
        StringEndNoQuote(s[1..], quote);
      }
    }
  }

  /** A literal body written with a backslash before every backslash and every quote. */
  function Escape(body: string, quote: char): (e: string)
    ensures |e| >= |body|
  {
    if body == [] then []
    else (if body[0] == '\\' || body[0] == quote then ['\\', body[0]] else [body[0]])
         + Escape(body[1..], quote)
  }

  lemma StringEndEscaped(c: char, t: string, quote: char)
    ensures StringEnd(['\\', c] + t, quote)
            == (match StringEnd(t, quote) case None => None case Some(n) => Some(n + 2))
  {
    assert (['\\', c] + t)[2..] == t;
  }

  lemma StringEndPlain(c: char, t: string, quote: char)
    requires c != '\\' && c != quote
    ensures StringEnd([c] + t, quote)
            == (match StringEnd(t, quote) case None => None case Some(n) => Some(n + 1))
  {
    assert ([c] + t)[1..] == t;
  }

  lemma AppendAssoc(a: string, b: string, c: string, d: string)
    ensures (a + b) + c + d == a + (b + c + d)
  {
  }

  /** The scan stops exactly at the closing quote of an escaped body, whatever follows it. */
  lemma {:induction false} StringEndEscapeRoundTrip(body: string, quote: char, rest: string)
    requires quote != '\\'
    ensures StringEnd(Escape(body, quote) + [quote] + rest, quote)
            == Some(|Escape(body, quote)| + 1)
  {
    if body == [] {
      assert Escape(body, quote) + [quote] + rest == [quote] + rest;
    } else {
      var e := Escape(body[1..], quote);
      var tail := e + [quote] + rest;
      StringEndEscapeRoundTrip(body[1..], quote, rest);
      var pre := if body[0] == '\\' || body[0] == quote then ['\\', body[0]] else [body[0]];
      assert Escape(body, quote) == pre + e;
      assert Escape(body, quote) + [quote] + rest == pre + tail by {
        AppendAssoc(pre, e, [quote], rest);
      }
      if body[0] == '\\' || body[0] == quote {
        StringEndEscaped(body[0], tail, quote);
      } else {
        StringEndPlain(body[0], tail, quote);
      }
    }
  }
}
