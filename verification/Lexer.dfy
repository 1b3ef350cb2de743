/**
 Blanking of Rust comments and literals ahead of the structural scan
 (scripts/check-command-migration-manifest.py, _strip_comments_and_strings).

 The reference is a grammar: a text is a list of tokens, and blanking replaces every
 token that is not code by spaces. The method below works character by character with
 mode flags, as the script does, and is proved to compute exactly that.
 */
module Lexer {

  /** One unit inside a string literal. */
  datatype Atom = Escape(c: char) | Plain(c: char)

  datatype Token =
    | Code(c: char)
    | LineComment(body: string, ended: bool)
    | BlockComment(body: string, ended: bool)
    | StringLiteral(atoms: seq<Atom>, ended: bool)
    | EmptyQuotes
    | CharAtom(escaped: bool, content: string, ended: bool)

  const QUOTE := '"'
  const TICK := '\''

  // ---- What a token looks like in the text, and after blanking ----

  function AtomText(a: Atom): string {
    match a
    case Escape(c) => ['\\', c]
    case Plain(c) => [c]
  }

  function AtomsText(atoms: seq<Atom>): string {
    if atoms == [] then [] else AtomText(atoms[0]) + AtomsText(atoms[1..])
  }

  function TokenText(t: Token): (s: string)
    ensures s != []
  {
    match t
    case Code(c) => [c]
    case LineComment(body, ended) => "//" + body + (if ended then "\n" else "")
    case BlockComment(body, ended) => "/*" + body + (if ended then "*/" else "")
    case StringLiteral(atoms, ended) => [QUOTE] + AtomsText(atoms) + (if ended then [QUOTE] else [])
    case EmptyQuotes => [TICK, TICK]
    case CharAtom(escaped, content, ended) =>
      [TICK] + (if escaped then ['\\'] else []) + content + (if ended then [TICK] else [])
  }

  function Spaces(n: nat): (s: string)
    ensures |s| == n && forall i :: 0 <= i < n ==> s[i] == ' '
  {
    seq(n, i => ' ')
  }

  /** Code stays; the newline that ends a line comment stays; everything else is blank. */
  function TokenBlank(t: Token): (s: string)
    ensures |s| == |TokenText(t)|
  {
    match t
    case Code(c) => [c]
    case LineComment(body, true) => Spaces(|body| + 2) + "\n"
    case _ => Spaces(|TokenText(t)|)
  }

  function Text(ts: seq<Token>): string {
    if ts == [] then [] else TokenText(ts[0]) + Text(ts[1..])
  }

  function Blank(ts: seq<Token>): string {
    if ts == [] then [] else TokenBlank(ts[0]) + Blank(ts[1..])
  }

  // ---- The grammar ----

  /** The text starts with these two characters. */
  predicate Opens(s: string, a: char, b: char) {
    |s| >= 2 && s[0] == a && s[1] == b
  }

  predicate EndOrPlain(atoms: seq<Atom>, ended: bool) {
    forall i :: 0 <= i < |atoms| ==>
                  atoms[i].Escape? ||
                  (atoms[i].c != QUOTE && (atoms[i].c == '\\' ==> !ended && i == |atoms| - 1))
  }

  /** No "*" "/" inside, nor across the closing delimiter. */
  predicate BlockBodyOk(body: string, ended: bool) {
    var s := body + if ended then "*" else "";
    forall i :: 0 <= i < |s| - 1 ==> !(s[i] == '*' && s[i + 1] == '/')
  }

  /** A token is well formed, given the text that follows it. */
  predicate Fits(t: Token, rest: string) {
    match t
    case Code(c) => c != QUOTE && c != TICK && (c == '/' ==> rest == [] || (rest[0] != '/' && rest[0] != '*'))
    case LineComment(body, ended) => '\n' !in body && (!ended ==> rest == [])
    case BlockComment(body, ended) => BlockBodyOk(body, ended) && (!ended ==> rest == [])
    case StringLiteral(atoms, ended) => EndOrPlain(atoms, ended) && (!ended ==> rest == [])
    case EmptyQuotes => true
    case CharAtom(escaped, content, ended) =>
      && |content| <= 1
      && (content == [] ==> !ended && rest == [])
      && (!escaped && content != [] ==> content[0] != '\\' && content[0] != TICK)
      && (!ended ==> rest == [] || rest[0] != TICK)
  }

  predicate WellFormed(ts: seq<Token>) {
    ts == [] || (Fits(ts[0], Text(ts[1..])) && WellFormed(ts[1..]))
  }

  // ---- Scanning ----

  function LineBody(s: string): string {
    if s == [] || s[0] == '\n' then [] else [s[0]] + LineBody(s[1..])
  }

  function BlockBody(s: string): string {
    if s == [] || Opens(s, '*', '/') then [] else [s[0]] + BlockBody(s[1..])
  }

  function StringAtoms(s: string): seq<Atom> {
    if s == [] || s[0] == QUOTE then []
    else if s[0] == '\\' && |s| > 1 then [Escape(s[1])] + StringAtoms(s[2..])
    else [Plain(s[0])] + StringAtoms(s[1..])
  }

  function First(s: string): Token
    requires s != []
  {
    if Opens(s, '/', '/') then
      var body := LineBody(s[2..]);
      LineComment(body, |body| + 2 < |s|)
    else if Opens(s, '/', '*') then
      var body := BlockBody(s[2..]);
      BlockComment(body, |body| + 2 < |s|)
    else if s[0] == QUOTE then
      var atoms := StringAtoms(s[1..]);
      StringLiteral(atoms, |AtomsText(atoms)| + 1 < |s|)
    else if s[0] == TICK then
      if |s| > 1 && s[1] == TICK then EmptyQuotes
      else
        var escaped := |s| > 1 && s[1] == '\\';
        var at := if escaped then 2 else 1;
        if at < |s| then CharAtom(escaped, [s[at]], at + 1 < |s| && s[at + 1] == TICK)
        else CharAtom(escaped, [], false)
    else Code(s[0])
  }

  function Scan(s: string): seq<Token>
    decreases |s|
  {
    if s == [] then []
    else
      FirstFits(s);
      [First(s)] + Scan(s[|TokenText(First(s))|..])
  }

  // ---- Scanning and printing undo each other ----

  lemma {:induction false} LineBodyProperties(s: string)
    ensures LineBody(s) <= s && '\n' !in LineBody(s)
    ensures |LineBody(s)| < |s| ==> s[|LineBody(s)|] == '\n'
  {
    if s == [] || s[0] == '\n' {
    } else {
      LineBodyProperties(s[1..]);
    }
  }

  lemma {:induction false} BlockBodyProperties(s: string)
    ensures BlockBody(s) <= s
    ensures |BlockBody(s)| < |s| ==> Opens(s[|BlockBody(s)|..], '*', '/') && BlockBodyOk(BlockBody(s), true)
    ensures |BlockBody(s)| == |s| ==> BlockBodyOk(BlockBody(s), false)
  {
    if s == [] || Opens(s, '*', '/') {
    } else {
      BlockBodyProperties(s[1..]);
      var b := BlockBody(s[1..]);
      assert s[1..][|b|..] == s[|b| + 1..];
      BlockBodyGrows(s[0], b, |b| + 1 < |s|);
    }
  }

  lemma BlockBodyGrows(c: char, body: string, ended: bool)
    requires BlockBodyOk(body, ended) && (c == '*' ==> body == [] || body[0] != '/')
    ensures BlockBodyOk([c] + body, ended)
  {
    var s, s' := body + (if ended then "*" else ""), [c] + body + if ended then "*" else "";
    assert s' == [c] + s;
  }

  lemma {:induction false} StringAtomsText(s: string)
    ensures var n := |AtomsText(StringAtoms(s))|;
            n <= |s| && s[..n] == AtomsText(StringAtoms(s)) && (n < |s| ==> s[n] == QUOTE)
    decreases |s|
  {
    if s == [] || s[0] == QUOTE {
    } else {
      var k := if s[0] == '\\' && |s| > 1 then 2 else 1;
      StringAtomsText(s[k..]);
      AtomsFirst(StringAtoms(s)[0], StringAtoms(s[k..]));
      PrefixJoin(s, k, AtomText(StringAtoms(s)[0]), AtomsText(StringAtoms(s[k..])));
    }
  }

  lemma PrefixJoin(s: string, k: nat, a: string, b: string)
    requires k <= |s| && s[..k] == a && |b| <= |s| - k && s[k..][..|b|] == b
    ensures s[..k + |b|] == a + b
    ensures k + |b| < |s| ==> s[k + |b|] == s[k..][|b|]
  {
  }

  lemma AtomsFirst(a: Atom, atoms: seq<Atom>)
    ensures AtomsText([a] + atoms) == AtomText(a) + AtomsText(atoms)
  {
  }

  lemma {:induction false} StringAtomsPlain(s: string)
    ensures EndOrPlain(StringAtoms(s), |AtomsText(StringAtoms(s))| < |s|)
    decreases |s|
  {
    if s == [] || s[0] == QUOTE {
    } else {
      var k := if s[0] == '\\' && |s| > 1 then 2 else 1;
      StringAtomsPlain(s[k..]);
      AtomsFirst(StringAtoms(s)[0], StringAtoms(s[k..]));
      if s == ['\\'] {
        assert StringAtoms(s[1..]) == [];
      }
    }
  }

  /** The first token is well formed in front of the rest, and its text starts the input. */
  lemma FirstFits(s: string)
    requires s != []
    ensures TokenText(First(s)) <= s
    ensures Fits(First(s), s[|TokenText(First(s))|..])
  {
    if Opens(s, '/', '/') {
      LineFits(s);
    } else if Opens(s, '/', '*') {
      BlockFits(s);
    } else if s[0] == QUOTE {
      StringFits(s);
    } else if s[0] == TICK {
      CharFits(s);
    }
  }

  lemma CharFits(s: string)
    requires s != [] && s[0] == TICK
    ensures TokenText(First(s)) <= s && Fits(First(s), s[|TokenText(First(s))|..])
  {
    var n := |TokenText(First(s))|;
    assert s[..n] == TokenText(First(s));
    assert n < |s| ==> s[n..][0] == s[n];
  }

  lemma LineFits(s: string)
    requires Opens(s, '/', '/')
    ensures var t := LineComment(LineBody(s[2..]), |LineBody(s[2..])| + 2 < |s|);
            TokenText(t) <= s && Fits(t, s[|TokenText(t)|..])
  {
    LineBodyProperties(s[2..]);
    var b := LineBody(s[2..]);
    assert s[..|b| + 2] == "//" + b;
    assert |b| + 2 < |s| ==> s[..|b| + 3] == "//" + b + "\n";
  }

  lemma BlockFits(s: string)
    requires Opens(s, '/', '*')
    ensures var t := BlockComment(BlockBody(s[2..]), |BlockBody(s[2..])| + 2 < |s|);
            TokenText(t) <= s && Fits(t, s[|TokenText(t)|..])
  {
    BlockBodyProperties(s[2..]);
    var b := BlockBody(s[2..]);
    assert s[..|b| + 2] == "/*" + b;
    if |b| + 2 < |s| {
      assert s[2..][|b|..] == s[|b| + 2..];
      assert s[..|b| + 4] == "/*" + b + "*/";
    }
  }

  lemma StringFits(s: string)
    requires s != [] && s[0] == QUOTE
    ensures var atoms := StringAtoms(s[1..]);
            var t := StringLiteral(atoms, |AtomsText(atoms)| + 1 < |s|);
            TokenText(t) <= s && Fits(t, s[|TokenText(t)|..])
  {
    StringAtomsText(s[1..]);
    StringAtomsPlain(s[1..]);
    var a := AtomsText(StringAtoms(s[1..]));
    assert s[..|a| + 1] == [QUOTE] + a;
    assert |a| + 1 < |s| ==> s[..|a| + 2] == [QUOTE] + a + [QUOTE];
  }

  /** Every text is the text of its tokens, and these are well formed. */
  lemma {:induction false} ScanPrints(s: string)
    ensures Text(Scan(s)) == s && WellFormed(Scan(s))
    decreases |s|
  {
    if s == [] {
    } else {
      FirstFits(s);
      var n := |TokenText(First(s))|;
      ScanPrints(s[n..]);
      PrefixSplit(TokenText(First(s)), s);
      PutFirst(First(s), Scan(s[n..]));
    }
  }

  lemma PrefixSplit(p: string, s: string)
    requires p <= s
    ensures s == p + s[|p|..]
  {
  }

  lemma {:induction false} PutFirst(t: Token, ts: seq<Token>)
    ensures Text([t] + ts) == TokenText(t) + Text(ts)
    ensures Fits(t, Text(ts)) && WellFormed(ts) ==> WellFormed([t] + ts)
  {
  }

  lemma {:induction false} LineBodyStops(body: string, rest: string)
    requires '\n' !in body && (rest == [] || rest[0] == '\n')
    ensures LineBody(body + rest) == body
  {
    if body == [] {
    } else {
      assert (body + rest)[1..] == body[1..] + rest;
      assert body == [body[0]] + body[1..];
      LineBodyStops(body[1..], rest);
    }
  }

  lemma {:induction false} BlockBodyStops(body: string, ended: bool, rest: string)
    requires BlockBodyOk(body, ended) && (if ended then Opens(rest, '*', '/') else rest == [])
    ensures BlockBody(body + rest) == body
  {
    if body != [] {
      assert (body + rest)[1..] == body[1..] + rest;
      assert body == [body[0]] + body[1..];
      var marked := body + if ended then "*" else "";
      assert body[1..] + (if ended then "*" else "") == marked[1..];
      assert |marked| > 1 ==> !(marked[0] == '*' && marked[0 + 1] == '/');
      BlockBodyStops(body[1..], ended, rest);
    } else if ended {
      assert body + rest == rest;
    }
  }

  lemma {:induction false} StringAtomsStop(atoms: seq<Atom>, ended: bool, rest: string)
    requires EndOrPlain(atoms, ended) && (if ended then rest != [] && rest[0] == QUOTE else rest == [])
    ensures StringAtoms(AtomsText(atoms) + rest) == atoms
  {
    if atoms != [] {
      assert atoms == [atoms[0]] + atoms[1..];
      assert EndOrPlain(atoms[1..], ended) by {
        assert forall i :: 0 <= i < |atoms[1..]| ==> atoms[1..][i] == atoms[i + 1];
      }
      StringAtomsStop(atoms[1..], ended, rest);
      assert atoms[0] == Plain('\\') ==> atoms[1..] == [] && rest == [];
      AtomScanned(atoms[0], AtomsText(atoms[1..]) + rest);
      assert AtomsText(atoms) + rest == AtomText(atoms[0]) + (AtomsText(atoms[1..]) + rest);
    } else {
      assert AtomsText(atoms) + rest == rest;
    }
  }

  lemma AtomScanned(a: Atom, later: string)
    requires a.Plain? ==> a.c != QUOTE && (a.c == '\\' ==> later == [])
    ensures StringAtoms(AtomText(a) + later) == [a] + StringAtoms(later)
  {
  }

  lemma FirstOf(t: Token, rest: string)
    requires Fits(t, rest)
    ensures First(TokenText(t) + rest) == t
  {
    match t
    case Code(c) =>
    case LineComment(body, ended) => FirstOfLine(body, ended, rest);
    case BlockComment(body, ended) => FirstOfBlock(body, ended, rest);
    case StringLiteral(atoms, ended) => FirstOfString(atoms, ended, rest);
    case EmptyQuotes =>
    case CharAtom(escaped, content, ended) => FirstOfChar(escaped, content, ended, rest);
  }

  lemma FirstOfLine(body: string, ended: bool, rest: string)
    requires Fits(LineComment(body, ended), rest)
    ensures First(TokenText(LineComment(body, ended)) + rest) == LineComment(body, ended)
  {
    var s := TokenText(LineComment(body, ended)) + rest;
    var after := (if ended then "\n" else "") + rest;
    assert s[2..] == body + after;
    LineBodyStops(body, after);
  }

  lemma FirstOfBlock(body: string, ended: bool, rest: string)
    requires Fits(BlockComment(body, ended), rest)
    ensures First(TokenText(BlockComment(body, ended)) + rest) == BlockComment(body, ended)
  {
    var s := TokenText(BlockComment(body, ended)) + rest;
    var after := (if ended then "*/" else "") + rest;
    assert s[2..] == body + after;
    BlockBodyStops(body, ended, after);
  }

  lemma FirstOfString(atoms: seq<Atom>, ended: bool, rest: string)
    requires Fits(StringLiteral(atoms, ended), rest)
    ensures First(TokenText(StringLiteral(atoms, ended)) + rest) == StringLiteral(atoms, ended)
  {
    var s := TokenText(StringLiteral(atoms, ended)) + rest;
    var after := (if ended then [QUOTE] else []) + rest;
    assert s[1..] == AtomsText(atoms) + after;
    StringAtomsStop(atoms, ended, after);
  }

  lemma FirstOfChar(escaped: bool, content: string, ended: bool, rest: string)
    requires Fits(CharAtom(escaped, content, ended), rest)
    ensures First(TokenText(CharAtom(escaped, content, ended)) + rest) == CharAtom(escaped, content, ended)
  {
  }

  lemma ScanFirst(t: Token, rest: string)
    requires Fits(t, rest)
    ensures Scan(TokenText(t) + rest) == [t] + Scan(rest)
  {
    FirstOf(t, rest);
    assert (TokenText(t) + rest)[|TokenText(t)|..] == rest;
  }

  /** The grammar is unambiguous: scanning the text of well-formed tokens gives them back. */
  lemma {:induction false} ScanRecovers(ts: seq<Token>)
    requires WellFormed(ts)
    ensures Scan(Text(ts)) == ts
  {
    if ts == [] {
    } else {
      ScanFirst(ts[0], Text(ts[1..]));
      ScanRecovers(ts[1..]);
      assert ts == [ts[0]] + ts[1..];
    }
  }

  // ---- The normal form ----

  /** No quote, and no comment opener. */
  predicate Clean(s: string) {
    && (forall i :: 0 <= i < |s| ==> s[i] != QUOTE && s[i] != TICK)
    && (forall i :: 0 <= i < |s| - 1 ==> !(s[i] == '/' && (s[i + 1] == '/' || s[i + 1] == '*')))
  }

  function Blanked(s: string): string {
    Blank(Scan(s))
  }

  /** Same length, and each character is unchanged or a space. */
  ghost predicate Masks(out: string, s: string) {
    |out| == |s| && forall i :: 0 <= i < |s| ==> out[i] == s[i] || out[i] == ' '
  }

  lemma TokenMasks(t: Token)
    ensures Masks(TokenBlank(t), TokenText(t))
  {
  }

  lemma {:induction false} BlankMasks(ts: seq<Token>)
    ensures Masks(Blank(ts), Text(ts))
  {
    if ts == [] {
    } else {
      TokenMasks(ts[0]);
      BlankMasks(ts[1..]);
      MasksJoin(TokenBlank(ts[0]), Blank(ts[1..]), TokenText(ts[0]), Text(ts[1..]));
    }
  }

  lemma MasksJoin(a: string, b: string, s: string, t: string)
    requires Masks(a, s) && Masks(b, t)
    ensures Masks(a + b, s + t)
  {
  }

  lemma TokenBlankClean(t: Token, rest: string)
    requires Fits(t, rest)
    ensures Clean(TokenBlank(t))
  {
  }

  lemma {:induction false} BlankClean(ts: seq<Token>)
    requires WellFormed(ts)
    ensures Clean(Blank(ts))
  {
    if ts == [] {
    } else {
      var rest := Text(ts[1..]);
      BlankClean(ts[1..]);
      BlankMasks(ts[1..]);
      TokenBlankClean(ts[0], rest);
      var a, b := TokenBlank(ts[0]), Blank(ts[1..]);
      if b != [] && a[|a| - 1] == '/' {
        assert ts[0] == Code('/');
      }
    }
  }

  lemma {:induction false} CleanIsCode(s: string)
    requires Clean(s)
    ensures Blanked(s) == s
  {
    if s == [] {
    } else {
      if |s| > 1 { assert s[..2] == [s[0], s[0 + 1]]; }
      assert First(s) == Code(s[0]);
      assert Clean(s[1..]) by {
        forall i | 0 <= i < |s[1..]| - 1
          ensures !(s[1..][i] == '/' && (s[1..][i + 1] == '/' || s[1..][i + 1] == '*'))
        {
          assert s[1..][i] == s[i + 1] && s[1..][i + 1] == s[i + 1 + 1];
        }
      }
      CleanIsCode(s[1..]);
      assert Scan(s)[1..] == Scan(s[1..]);
    }
  }

  /** Blanking keeps the length, only replaces by spaces, leaves no quote and no comment
      opener, and therefore changes nothing the second time: for every text, terminated
      literals or not. The texts it leaves alone are exactly the clean ones. */
  lemma NormalForm(s: string)
    ensures Masks(Blanked(s), s)
    ensures Clean(Blanked(s))
    ensures Blanked(Blanked(s)) == Blanked(s)
    ensures Blanked(s) == s <==> Clean(s)
  {
    ScanPrints(s);
    BlankMasks(Scan(s));
    BlankClean(Scan(s));
    CleanIsCode(Blanked(s));
    if Clean(s) { CleanIsCode(s); }
  }

  // ---- Blanking, construct by construct ----

  lemma BlankedFirst(t: Token, rest: string)
    requires Fits(t, rest)
    ensures Blanked(TokenText(t) + rest) == TokenBlank(t) + Blanked(rest)
  {
    ScanFirst(t, rest);
    assert ([t] + Scan(rest))[1..] == Scan(rest);
  }

  /** A line comment turns blank, and the newline that ends it stays. */
  lemma BlankedLineComment(body: string, rest: string)
    requires '\n' !in body
    ensures Blanked("//" + body + "\n" + rest) == Spaces(|body| + 2) + "\n" + Blanked(rest)
    ensures Blanked("//" + body) == Spaces(|body| + 2)
  {
    BlankedFirst(LineComment(body, true), rest);
    BlankedFirst(LineComment(body, false), []);
    assert TokenText(LineComment(body, false)) + [] == "//" + body;
    assert Blanked([]) == [];
  }

  /** A block comment turns blank, newlines and delimiters included. */
  lemma BlankedBlockComment(body: string, rest: string)
    requires BlockBodyOk(body, true)
    ensures Blanked("/*" + body + "*/" + rest) == Spaces(|body| + 4) + Blanked(rest)
  {
    BlankedFirst(BlockComment(body, true), rest);
  }

  /** A string literal turns blank, quotes included. */
  lemma BlankedString(body: string, rest: string)
    requires OrdinaryBody(body)
    ensures Blanked([QUOTE] + body + [QUOTE] + rest) == Spaces(|body| + 2) + Blanked(rest)
  {
    var atoms :| AtomsText(atoms) == body && EndOrPlain(atoms, true);
    BlankedFirst(StringLiteral(atoms, true), rest);
  }

  /** A character literal turns blank, ticks included. */
  lemma BlankedChar(body: string, rest: string)
    requires ShortBody(body)
    ensures Blanked([TICK] + body + [TICK] + rest) == Spaces(|body| + 2) + Blanked(rest)
  {
    var s := [TICK] + body + [TICK] + rest;
    CharEndsAtItsTick(body, rest);
    FirstFits(s);
    var t := First(s);
    BlankedFirst(t, rest);
    assert TokenText(t) + rest == s;
  }

  /** Any other character stays. */
  lemma BlankedCode(c: char, rest: string)
    requires c != QUOTE && c != TICK && (c == '/' ==> rest == [] || (rest[0] != '/' && rest[0] != '*'))
    ensures Blanked([c] + rest) == [c] + Blanked(rest)
  {
    BlankedFirst(Code(c), rest);
  }

  // ---- The script's loop ----

  datatype Mode = InCode | InLine | InBlock | InString

  /** How many characters one visit to a tick consumes. */
  function TickLength(s: string): (k: nat)
    requires s != [] && s[0] == TICK
    ensures 1 <= k <= |s|
  {
    if |s| > 1 && s[1] == TICK then 2
    else
      var a := if |s| > 1 && s[1] == '\\' then 2 else 1;
      var b := if a < |s| then a + 1 else a;
      if b < |s| && s[b] == TICK then b + 1 else b
  }

  /** What the character-by-character scan writes from here on, in each of its modes. */
  function Ahead(mode: Mode, s: string): string
    decreases |s|
  {
    if s == [] then []
    else match mode
      case InLine => if s[0] == '\n' then "\n" + Ahead(InCode, s[1..]) else " " + Ahead(InLine, s[1..])
      case InBlock => if Opens(s, '*', '/') then "  " + Ahead(InCode, s[2..]) else " " + Ahead(InBlock, s[1..])
      case InString =>
        if s[0] == '\\' && |s| > 1 then "  " + Ahead(InString, s[2..])
        else " " + Ahead(if s[0] == QUOTE then InCode else InString, s[1..])
      case InCode =>
        if Opens(s, '/', '/') then "  " + Ahead(InLine, s[2..])
        else if Opens(s, '/', '*') then "  " + Ahead(InBlock, s[2..])
        else if s[0] == QUOTE then " " + Ahead(InString, s[1..])
        else if s[0] == TICK then Spaces(TickLength(s)) + Ahead(InCode, s[TickLength(s)..])
        else [s[0]] + Ahead(InCode, s[1..])
  }

  /** What the scan writes from inside a line comment with `n` characters to go. */
  function AfterLine(s: string, n: nat): string
    requires n <= |s|
  {
    Spaces(n) + if n < |s| then "\n" + Ahead(InCode, s[n + 1..]) else []
  }

  lemma AfterLineStep(s: string, n: nat)
    requires n + 1 <= |s|
    ensures AfterLine(s, n + 1) == " " + AfterLine(s[1..], n)
  {
    if n + 1 == |s| {
      MoreSpaces(" ", n, []);
    } else {
      assert s[1..][n + 1..] == s[n + 2..];
      MoreSpaces(" ", n, "\n" + Ahead(InCode, s[n + 2..]));
    }
  }

  lemma {:induction false} AheadLine(s: string)
    ensures |LineBody(s)| <= |s|
    ensures Ahead(InLine, s) == AfterLine(s, |LineBody(s)|)
  {
    if s == [] {
    } else if s[0] == '\n' {
      assert Ahead(InLine, s) == "\n" + Ahead(InCode, s[1..]);
    } else {
      AheadLine(s[1..]);
      AfterLineStep(s, |LineBody(s[1..])|);
    }
  }

  /** What the scan writes from inside a block comment with `n` characters to go. */
  function AfterBlock(s: string, n: nat): string
    requires n == |s| || n + 2 <= |s|
  {
    if n < |s| then Spaces(n + 2) + Ahead(InCode, s[n + 2..]) else Spaces(|s|)
  }

  lemma AfterBlockStep(s: string, n: nat)
    requires n + 1 == |s| || n + 3 <= |s|
    ensures AfterBlock(s, n + 1) == " " + AfterBlock(s[1..], n)
  {
    if n + 1 == |s| {
      MoreSpaces(" ", n, []);
    } else {
      assert s[1..][n + 2..] == s[n + 3..];
      MoreSpaces(" ", n + 2, Ahead(InCode, s[n + 3..]));
    }
  }

  lemma {:induction false} AheadBlock(s: string)
    ensures |BlockBody(s)| == |s| || |BlockBody(s)| + 2 <= |s|
    ensures Ahead(InBlock, s) == AfterBlock(s, |BlockBody(s)|)
  {
    if s == [] {
    } else if Opens(s, '*', '/') {
      assert Spaces(2) == "  ";
    } else {
      AheadBlock(s[1..]);
      AfterBlockStep(s, |BlockBody(s[1..])|);
    }
  }

  lemma {:induction false} AheadString(s: string)
    ensures |AtomsText(StringAtoms(s))| <= |s|
    ensures Ahead(InString, s) == AfterAtoms(s, |AtomsText(StringAtoms(s))|)
    decreases |s|
  {
    if s == [] {
    } else if s[0] == QUOTE {
      AheadQuote(s);
    } else {
      var k := if s[0] == '\\' && |s| > 1 then 2 else 1;
      AheadString(s[k..]);
      AtomStep(s, k);
      AfterAtomsStep(s, k, |AtomsText(StringAtoms(s[k..]))|);
    }
  }

  lemma AheadQuote(s: string)
    requires s != [] && s[0] == QUOTE
    ensures |AtomsText(StringAtoms(s))| == 0 && Ahead(InString, s) == AfterAtoms(s, 0)
  {
    StringStep(s);
  }

  lemma AtomStep(s: string, k: nat)
    requires s != [] && s[0] != QUOTE && k == if s[0] == '\\' && |s| > 1 then 2 else 1
    ensures |AtomsText(StringAtoms(s))| == k + |AtomsText(StringAtoms(s[k..]))|
    ensures Ahead(InString, s) == Spaces(k) + Ahead(InString, s[k..])
  {
    StringStep(s);
    AtomsFirst(StringAtoms(s)[0], StringAtoms(s[k..]));
  }

  /** Blanks for `n` characters and for the closing quote, if there is one. */
  function AfterAtoms(s: string, n: nat): string
    requires n <= |s|
  {
    if n < |s| then Spaces(n + 1) + Ahead(InCode, s[n + 1..]) else Spaces(n)
  }

  lemma AfterAtomsStep(s: string, k: nat, n: nat)
    requires k + n <= |s| && 1 <= k <= 2
    ensures AfterAtoms(s, k + n) == Spaces(k) + AfterAtoms(s[k..], n)
  {
  }

  /** In code, the scan writes the blanked first token and goes on in code behind it. */
  lemma AheadFirst(s: string)
    requires s != []
    ensures |TokenText(First(s))| <= |s|
    ensures Ahead(InCode, s) == TokenBlank(First(s)) + Ahead(InCode, s[|TokenText(First(s))|..])
  {
    FirstFits(s);
    if Opens(s, '/', '/') {
      AheadLineComment(s);
    } else if Opens(s, '/', '*') {
      AheadBlockComment(s);
    } else if s[0] == QUOTE {
      AheadLiteral(s);
    } else if s[0] == TICK {
      assert |TokenText(First(s))| == TickLength(s);
    }
  }

  lemma AheadLineComment(s: string)
    requires Opens(s, '/', '/')
    ensures var t := LineComment(LineBody(s[2..]), |LineBody(s[2..])| + 2 < |s|);
            |TokenText(t)| <= |s| && Ahead(InCode, s) == TokenBlank(t) + Ahead(InCode, s[|TokenText(t)|..])
  {
    AheadLine(s[2..]);
    var n := |LineBody(s[2..])|;
    if n + 2 < |s| {
      assert s[2..][n + 1..] == s[n + 3..];
      var later := Ahead(InCode, s[n + 3..]);
      MoreSpaces("  ", n, "\n" + later);
      assert Spaces(n + 2) + ("\n" + later) == Spaces(n + 2) + "\n" + later;
    } else {
      MoreSpaces("  ", n, []);
    }
  }

  lemma AheadBlockComment(s: string)
    requires Opens(s, '/', '*')
    ensures var t := BlockComment(BlockBody(s[2..]), |BlockBody(s[2..])| + 2 < |s|);
            |TokenText(t)| <= |s| && Ahead(InCode, s) == TokenBlank(t) + Ahead(InCode, s[|TokenText(t)|..])
  {
    AheadBlock(s[2..]);
    var n := |BlockBody(s[2..])|;
    if n + 2 < |s| {
      assert s[2..][n + 2..] == s[n + 4..];
      MoreSpaces("  ", n + 2, Ahead(InCode, s[n + 4..]));
    } else {
      MoreSpaces("  ", n, []);
    }
  }

  lemma AheadLiteral(s: string)
    requires s != [] && s[0] == QUOTE
    ensures var atoms := StringAtoms(s[1..]);
            var t := StringLiteral(atoms, |AtomsText(atoms)| + 1 < |s|);
            |TokenText(t)| <= |s| && Ahead(InCode, s) == TokenBlank(t) + Ahead(InCode, s[|TokenText(t)|..])
  {
    AheadString(s[1..]);
    var atoms := StringAtoms(s[1..]);
    var n := |AtomsText(atoms)|;
    LiteralBlank(s, n);
    assert |TokenText(StringLiteral(atoms, n + 1 < |s|))| == if n + 1 < |s| then n + 2 else n + 1;
  }

  lemma LiteralBlank(s: string, n: nat)
    requires n + 1 <= |s|
    ensures n + 1 < |s| ==> " " + AfterAtoms(s[1..], n) == Spaces(n + 2) + Ahead(InCode, s[n + 2..])
    ensures n + 1 == |s| ==> " " + AfterAtoms(s[1..], n) == Spaces(n + 1) + Ahead(InCode, s[n + 1..])
  {
  }

  /** Blanks in front of blanks. */
  lemma MoreSpaces(front: string, n: nat, later: string)
    requires front == " " || front == "  "
    ensures front + (Spaces(n) + later) == Spaces(|front| + n) + later
    ensures front + Spaces(n) == Spaces(|front| + n)
  {
  }

  /** The modes of the scan compute the blanked token list. */
  lemma {:induction false} AheadIsBlanked(s: string)
    ensures Ahead(InCode, s) == Blanked(s)
    decreases |s|
  {
    if s == [] {
    } else {
      AheadFirst(s);
      var rest := s[|TokenText(First(s))|..];
      AheadIsBlanked(rest);
      BlankFirst(First(s), Scan(rest));
    }
  }

  lemma BlankFirst(t: Token, ts: seq<Token>)
    ensures Blank([t] + ts) == TokenBlank(t) + Blank(ts)
  {
  }

  lemma StringStep(s: string)
    requires s != []
    ensures Ahead(InString, s) ==
            if s[0] == '\\' && |s| > 1 then Spaces(2) + Ahead(InString, s[2..])
            else Spaces(1) + Ahead(if s[0] == QUOTE then InCode else InString, s[1..])
  {
    assert Spaces(1) == " " && Spaces(2) == "  ";
  }

  /** Blank `k` characters in place. */
  method Wipe(out: array<char>, i: nat, k: nat)
    requires i + k <= out.Length
    modifies out
    ensures out[..] == old(out[..i]) + Spaces(k) + old(out[i + k..])
  {
    for j := 0 to k
      invariant out[..i] == old(out[..i]) && out[i + j..] == old(out[i + j..])
      invariant forall m :: i <= m < i + j ==> out[m] == ' '
    {
      out[i + j] := ' ';
    }
    assert out[..] == out[..i] + out[i..i + k] + out[i + k..];
  }

  /** Writing the next piece moves it from what lies ahead to what is done. */
  lemma Advance(done: string, ahead: string, piece: string, later: string, expected: string)
    requires done + ahead == expected && ahead == piece + later
    ensures (done + piece) + later == expected
  {
  }

  /** The array after wiping `k` characters at `i`, cut at the new position. */
  lemma Cut(text: string, done: string, piece: string, out: string, i: nat, k: nat)
    requires i + k <= |text| && |done| == i && |piece| == k && out == done + piece + text[i..][k..]
    ensures out[..i + k] == done + piece && out[i + k..] == text[i + k..] && text[i..][k..] == text[i + k..]
  {
  }

  /** `_strip_comments_and_strings`. The block-comment counter only ever holds 0 or 1, since
      no opener is looked for inside a comment: block comments do not nest. */
  method StripCommentsAndStrings(text: string) returns (result: string)
    ensures result == Blanked(text)
  {
    var n := |text|;
    var out := new char[n](i requires 0 <= i < n => text[i]);
    var i := 0;
    var inLine := false;
    var inBlock: nat := 0;
    assert out[..] == text;
    while i < n
      invariant 0 <= i <= n && out.Length == n
      invariant inBlock <= 1 && !(inLine && inBlock == 1)
      invariant out[i..] == text[i..]
      invariant out[..i] + Ahead(if inLine then InLine else if inBlock == 1 then InBlock else InCode, text[i..])
             == Ahead(InCode, text)
    {
      if inLine {
        i, inLine := StripInLine(text, out, i);
      } else if inBlock > 0 {
        var closed;
        i, closed := StripInBlock(text, out, i);
        if closed { inBlock := inBlock - 1; }
      } else {
        var mode;
        i, mode := StripInCode(text, out, i);
        if mode == InLine { inLine := true; }
        if mode == InBlock { inBlock := inBlock + 1; }
      }
    }
    assert out[..n] == out[..] && text[n..] == [];
    AheadIsBlanked(text);
    result := out[..];
  }

  method StripInCode(text: string, out: array<char>, start: nat) returns (i: nat, mode: Mode)
    requires out.Length == |text| && start < |text| && out[start..] == text[start..]
    requires out[..start] + Ahead(InCode, text[start..]) == Ahead(InCode, text)
    modifies out
    ensures start < i <= |text| && out[i..] == text[i..] && mode != InString
    ensures out[..i] + Ahead(mode, text[i..]) == Ahead(InCode, text)
  {
    mode := InCode;
    if Opens(text[start..], '/', '/') {
      mode := InLine;
      Erase(text, out, start, 2, InCode, InLine);
      i := start + 2;
    } else if Opens(text[start..], '/', '*') {
      mode := InBlock;
      Erase(text, out, start, 2, InCode, InBlock);
      i := start + 2;
    } else if text[start] == QUOTE {
      i := StripString(text, out, start);
    } else if text[start] == TICK {
      i := StripChar(text, out, start);
    } else {
      Kept(text, out, start, InCode);
      i := start + 1;
    }
  }

  method StripInLine(text: string, out: array<char>, start: nat) returns (i: nat, inLine: bool)
    requires out.Length == |text| && start < |text| && out[start..] == text[start..]
    requires out[..start] + Ahead(InLine, text[start..]) == Ahead(InCode, text)
    modifies out
    ensures start < i <= |text| && out[i..] == text[i..]
    ensures out[..i] + Ahead(if inLine then InLine else InCode, text[i..]) == Ahead(InCode, text)
  {
    i := start + 1;
    inLine := text[start] != '\n';
    if inLine { Erase(text, out, start, 1, InLine, InLine); }
    else { Kept(text, out, start, InLine); }
  }

  method StripInBlock(text: string, out: array<char>, start: nat) returns (i: nat, closed: bool)
    requires out.Length == |text| && start < |text| && out[start..] == text[start..]
    requires out[..start] + Ahead(InBlock, text[start..]) == Ahead(InCode, text)
    modifies out
    ensures start < i <= |text| && out[i..] == text[i..]
    ensures out[..i] + Ahead(if closed then InCode else InBlock, text[i..]) == Ahead(InCode, text)
  {
    closed := Opens(text[start..], '*', '/');
    if closed {
      Erase(text, out, start, 2, InBlock, InCode);
      i := start + 2;
    } else {
      Erase(text, out, start, 1, InBlock, InBlock);
      i := start + 1;
    }
  }

  /** Blank `k` characters, after which the scan goes on in mode `to`. */
  method Erase(text: string, out: array<char>, i: nat, k: nat, ghost from: Mode, ghost to: Mode)
    requires out.Length == |text| && i + k <= |text| && out[i..] == text[i..]
    requires out[..i] + Ahead(from, text[i..]) == Ahead(InCode, text)
    requires Ahead(from, text[i..]) == Spaces(k) + Ahead(to, text[i..][k..])
    modifies out
    ensures out[i + k..] == text[i + k..]
    ensures out[..i + k] + Ahead(to, text[i + k..]) == Ahead(InCode, text)
  {
    ghost var done := out[..i];
    assert out[i + k..] == text[i..][k..];
    Wipe(out, i, k);
    Cut(text, done, Spaces(k), out[..], i, k);
    Advance(done, Ahead(from, text[i..]), Spaces(k), Ahead(to, text[i + k..]), Ahead(InCode, text));
    assert out[..i + k] == out[..][..i + k] && out[i + k..] == out[..][i + k..];
  }

  /** A character that stays, after which the scan is in code. */
  lemma Kept(text: string, out: array<char>, i: nat, from: Mode)
    requires out.Length == |text| && i < |text| && out[i..] == text[i..]
    requires out[..i] + Ahead(from, text[i..]) == Ahead(InCode, text)
    requires Ahead(from, text[i..]) == [text[i]] + Ahead(InCode, text[i..][1..])
    ensures out[i + 1..] == text[i + 1..]
    ensures out[..i + 1] + Ahead(InCode, text[i + 1..]) == Ahead(InCode, text)
  {
    var rest := text[i..];
    assert out[..] == out[..i] + [text[i]] + rest[1..] by {
      assert out[..] == out[..i] + out[i..];
      assert rest == [text[i]] + rest[1..];
    }
    Cut(text, out[..i], [text[i]], out[..], i, 1);
    Advance(out[..i], Ahead(from, rest), [text[i]], Ahead(InCode, text[i + 1..]), Ahead(InCode, text));
    assert out[..i + 1] == out[..][..i + 1] && out[i + 1..] == out[..][i + 1..];
  }

  method StripString(text: string, out: array<char>, start: nat) returns (i: nat)
    requires out.Length == |text| && start < |text| && text[start] == QUOTE
    requires out[start..] == text[start..]
    requires out[..start] + Ahead(InCode, text[start..]) == Ahead(InCode, text)
    modifies out
    ensures start < i <= |text| && out[i..] == text[i..]
    ensures out[..i] + Ahead(InCode, text[i..]) == Ahead(InCode, text)
  {
    var n := |text|;
    Erase(text, out, start, 1, InCode, InString);
    i := start + 1;
    // The script tests for '#"' here, one position before i. That position holds the
    // quote itself, so the branch for raw strings is never taken.
    assert text[i - 1] != '#';
    var closed := false;
    while i < n && !closed
      invariant start < i <= n && out[i..] == text[i..]
      invariant out[..i] + Ahead(if closed then InCode else InString, text[i..]) == Ahead(InCode, text)
    {
      i, closed := StripAtom(text, out, i);
    }
    assert !closed ==> text[i..] == [];
  }

  method StripAtom(text: string, out: array<char>, start: nat) returns (i: nat, closed: bool)
    requires out.Length == |text| && start < |text| && out[start..] == text[start..]
    requires out[..start] + Ahead(InString, text[start..]) == Ahead(InCode, text)
    modifies out
    ensures start < i <= |text| && out[i..] == text[i..]
    ensures out[..i] + Ahead(if closed then InCode else InString, text[i..]) == Ahead(InCode, text)
  {
    StringStep(text[start..]);
    if text[start] == '\\' && start + 1 < |text| {
      Erase(text, out, start, 2, InString, InString);
      return start + 2, false;
    }
    closed := text[start] == QUOTE;
    Erase(text, out, start, 1, InString, if closed then InCode else InString);
    i := start + 1;
  }

  /** Where one visit to a tick ends, counted in the whole text. */
  function TickEnd(text: string, start: nat): nat {
    var i := start + 1;
    if i < |text| && text[i] == TICK then i + 1
    else
      var a := if i < |text| && text[i] == '\\' then i + 1 else i;
      var b := if a < |text| then a + 1 else a;
      if b < |text| && text[b] == TICK then b + 1 else b
  }

  lemma TickEndsThere(text: string, start: nat)
    requires start < |text| && text[start] == TICK
    ensures TickEnd(text, start) == start + TickLength(text[start..])
  {
    var s := text[start..];
    assert forall j :: 0 <= j < |s| ==> s[j] == text[start + j];
  }

  lemma AheadTick(s: string)
    requires s != [] && s[0] == TICK
    ensures Ahead(InCode, s) == Spaces(TickLength(s)) + Ahead(InCode, s[TickLength(s)..])
  {
  }

  method FindTickEnd(text: string, start: nat) returns (i: nat)
    requires start < |text|
    ensures i == TickEnd(text, start)
  {
    var n := |text|;
    i := start + 1;
    if i < n && text[i] == TICK {
      i := i + 1;
    } else {
      if i < n && text[i] == '\\' { i := i + 1; }
      if i < n { i := i + 1; }
      if i < n && text[i] == TICK { i := i + 1; }
    }
  }

  method StripChar(text: string, out: array<char>, start: nat) returns (i: nat)
    requires out.Length == |text| && start < |text| && text[start] == TICK
    requires out[start..] == text[start..]
    requires out[..start] + Ahead(InCode, text[start..]) == Ahead(InCode, text)
    modifies out
    ensures start < i <= |text| && out[i..] == text[i..]
    ensures out[..i] + Ahead(InCode, text[i..]) == Ahead(InCode, text)
  {
    i := FindTickEnd(text, start);
    TickEndsThere(text, start);
    AheadTick(text[start..]);
    Erase(text, out, start, i - start, InCode, InCode);
  }

  // ---- Three ways in which Rust differs ----

  /** An ordinary string body: characters other than quotes and backslashes, and escapes. */
  ghost predicate OrdinaryBody(body: string) {
    exists atoms :: AtomsText(atoms) == body && EndOrPlain(atoms, true)
  }

  /** Whatever prefix introduces it, a literal is blanked up to its own closing quote exactly
      when its body is an ordinary one; a raw string with a quote or a final backslash is not. */
  lemma LiteralEndsAtItsQuote(body: string, rest: string)
    ensures OrdinaryBody(body) <==>
            exists atoms :: AtomsText(atoms) == body &&
                            First([QUOTE] + body + [QUOTE] + rest) == StringLiteral(atoms, true)
  {
    var s := [QUOTE] + body + [QUOTE] + rest;
    if atoms :| AtomsText(atoms) == body && EndOrPlain(atoms, true) {
      var t := StringLiteral(atoms, true);
      FirstOf(t, rest);
      assert TokenText(t) + rest == s;
    }
    FirstFits(s);
  }

  /** A block comment is blanked up to its own closer exactly when no closer comes earlier,
      nested or not. */
  lemma CommentEndsAtItsCloser(body: string, rest: string)
    ensures First("/*" + body + "*/" + rest) == BlockComment(body, true) <==> BlockBodyOk(body, true)
  {
    var s := "/*" + body + "*/" + rest;
    FirstFits(s);
    if BlockBodyOk(body, true) {
      FirstOf(BlockComment(body, true), rest);
      assert TokenText(BlockComment(body, true)) + rest == s;
    }
  }

  /** A raw string may contain a quote; here the quote ends the literal, so the character
      after it is treated as code. */
  lemma RawStringLeaks()
    ensures Blanked("r#\"a\"b\"#") == "r#   b  "
  {
    var ts := [Code('r'), Code('#'), StringLiteral([Plain('a')], true), Code('b'), StringLiteral([Plain('#')], false)];
    LeakTokens(ts, "r#\"a\"b\"#", "r#   b  ");
  }

  /** In Rust block comments nest; here the first closer ends the comment. */
  lemma NestedCommentLeaks()
    ensures Blanked("/*/**/x*/") == "      x*/"
  {
    var ts := [BlockComment("/*", true), Code('x'), Code('*'), Code('/')];
    LeakTokens(ts, "/*/**/x*/", "      x*/");
  }

  /** One character, or a backslash and one character. */
  predicate ShortBody(body: string) {
    (|body| == 1 && body[0] != '\\' && body[0] != TICK) || (|body| == 2 && body[0] == '\\')
  }

  /** The first token of a text is this character literal, closing tick included. */
  ghost predicate StartsWithChar(s: string, lit: string)
    requires s != []
  {
    First(s).CharAtom? && First(s).ended && TokenText(First(s)) == lit
  }

  /** A character literal is blanked up to its own closing tick exactly when its body is a single
      character or a short escape; a longer escape is not. */
  lemma CharEndsAtItsTick(body: string, rest: string)
    ensures StartsWithChar([TICK] + body + [TICK] + rest, [TICK] + body + [TICK]) <==> ShortBody(body)
  {
    var s := [TICK] + body + [TICK] + rest;
    assert s[0] == TICK && s[|body| + 1] == TICK && forall i :: 0 <= i < |body| ==> s[i + 1] == body[i];
    FirstFits(s);
  }

  const LONG_ESCAPE := "'\\x41')"

  /** A longer escape leaks its digits, and its closing tick takes the character behind it, here
      a parenthesis. */
  lemma LongEscapeLeaks()
    ensures Blanked(LONG_ESCAPE) == "   41  "
  {
    var ts := [CharAtom(true, "x", false), Code('4'), Code('1'), CharAtom(false, ")", false)];
    LeakTokens(ts, LONG_ESCAPE, "   41  ");
  }

  lemma LeakTokens(ts: seq<Token>, s: string, out: string)
    requires WellFormed(ts) && Text(ts) == s && Blank(ts) == out
    ensures Blanked(s) == out
  {
    ScanRecovers(ts);
  }
}
