/**
 Token trees and their printed form: the texts the delimiter scanner is meant to accept.

 A tree is a sequence of tokens and delimited groups.  Every token is followed by a blank; what may
 stand inside a literal or a comment is as free as the language allows.
 */
module TokenTrees {
  import opened RustScanner
  import opened Wrappers

  datatype Glyph = Plain(c: char) | Escaped(c: char)

  /** The inside of a block comment; `Lone` is a `/` or `*` that starts no marker. */
  datatype Remark = Stop | Letter(c: char, rest: Remark) | Lone(symbol: char, c: char, rest: Remark) | Nested(inner: Remark, rest: Remark)

  datatype Token =
    | Name(text: string)
    | Lifetime(text: string)
    | Quoted(glyphs: seq<Glyph>)
    | Letters(glyph: Glyph)
    | Raw(hashes: nat, body: string)
    | LineRemark(body: string)
    | BlockRemark(remark: Remark)

  datatype Code = Done | Leaf(token: Token, rest: Code) | Group(kind: Bracket, inner: Code, rest: Code)

  // ---------------------------------------------------------------- well-formedness

  predicate ValidGlyph(g: Glyph, quote: char) {
    g.Plain? ==> g.c != '\\' && g.c != quote
  }

  predicate ValidRemark(r: Remark) {
    match r
    case Stop => true
    case Letter(c, rest) => c != '/' && c != '*' && ValidRemark(rest)
    case Lone(x, c, rest) => (x == '/' || x == '*') && c != '/' && c != '*' && ValidRemark(rest)
    case Nested(inner, rest) => ValidRemark(inner) && ValidRemark(rest)
  }

  predicate ValidName(w: string) {
    forall i | 0 <= i < |w| ::
      && w[i] != '"' && w[i] != '\'' && w[i] !in "()[]{}"
      && (w[i] == '/' && i + 1 < |w| ==> w[i + 1] != '/' && w[i + 1] != '*')
  }

  /** No earlier quote of the body is followed by as many hashes as close the literal. */
  predicate ValidRaw(hashes: nat, body: string) {
    forall i | 0 <= i < |body| && body[i] == '"' :: !(Hashes(hashes) <= (body + "\"" + Hashes(hashes))[i + 1..])
  }

  predicate ValidToken(alpha: char -> bool, t: Token) {
    match t
    case Name(w) => ValidName(w)
    case Lifetime(w) => w != "" && (alpha(w[0]) || w[0] == '_') && ValidName(w)
    case Quoted(gs) => forall i | 0 <= i < |gs| :: ValidGlyph(gs[i], '"')
    case Letters(g) => ValidGlyph(g, '\'')
    case Raw(h, body) => ValidRaw(h, body)
    case LineRemark(body) => '\n' !in body
    case BlockRemark(r) => ValidRemark(r)
  }

  predicate ValidCode(alpha: char -> bool, code: Code) {
    match code
    case Done => true
    case Leaf(t, rest) => ValidToken(alpha, t) && ValidCode(alpha, rest)
    case Group(_, inner, rest) => ValidCode(alpha, inner) && ValidCode(alpha, rest)
  }

  // ---------------------------------------------------------------- printing

  function PrintGlyph(g: Glyph): string {
    if g.Plain? then [g.c] else ['\\', g.c]
  }

  function PrintGlyphs(gs: seq<Glyph>): string {
    if gs == [] then "" else PrintGlyph(gs[0]) + PrintGlyphs(gs[1..])
  }

  function PrintRemark(r: Remark): string {
    match r
    case Stop => ""
    case Letter(c, rest) => [c] + PrintRemark(rest)
    case Lone(x, c, rest) => [x, c] + PrintRemark(rest)
    case Nested(inner, rest) => "/*" + PrintRemark(inner) + "*/" + PrintRemark(rest)
  }

  function PrintToken(t: Token): string {
    match t
    case Name(w) => w
    case Lifetime(w) => "'" + w
    case Quoted(gs) => "\"" + PrintGlyphs(gs) + "\""
    case Letters(g) => "'" + PrintGlyph(g) + "'"
    case Raw(h, body) => "r" + Hashes(h) + "\"" + body + "\"" + Hashes(h)
    case LineRemark(body) => "//" + body + "\n"
    case BlockRemark(r) => "/*" + PrintRemark(r) + "*/"
  }

  function Print(code: Code): string {
    match code
    case Done => ""
    case Leaf(t, rest) => PrintToken(t) + " " + Print(rest)
    case Group(k, inner, rest) => [k.Open()] + Print(inner) + [k.Close()] + Print(rest)
  }

  /** The groups of a tree, forgetting its tokens. */
  function Skeleton(code: Code): Forest {
    match code
    case Done => Bare
    case Leaf(_, rest) => Skeleton(rest)
    case Group(k, inner, rest) => Pair(k, Skeleton(inner), Skeleton(rest))
  }

  // ---------------------------------------------------------------- printed lexemes are read back

  lemma {:induction false} GlyphsClose(gs: seq<Glyph>, quote: char, s: string)
    requires quote != '\\' && forall i | 0 <= i < |gs| :: ValidGlyph(gs[i], quote)
    ensures AfterQuoted(PrintGlyphs(gs) + [quote] + s, quote) == Some(s)
  {
    var t := PrintGlyphs(gs) + [quote] + s;
    if gs == [] {
      assert t[1..] == s;
    } else {
      GlyphsClose(gs[1..], quote, s);
      var tail := PrintGlyphs(gs[1..]) + [quote] + s;
      assert t == PrintGlyph(gs[0]) + tail;
      assert if gs[0].Plain? then t[1..] == tail else Drop(t, 2) == tail;
    }
  }

  lemma {:induction false} LineCloses(body: string, s: string)
    requires '\n' !in body
    ensures AfterLine(body + "\n" + s) == s
  {
    var t := body + "\n" + s;
    if body == "" {
      assert t[1..] == s;
    } else {
      assert t[1..] == body[1..] + "\n" + s;
      LineCloses(body[1..], s);
    }
  }

  lemma {:induction false} RawCloses(hashes: nat, body: string, from: nat, s: string)
    requires ValidRaw(hashes, body) && from <= |body|
    ensures AfterRaw(body[from..] + "\"" + Hashes(hashes) + s, hashes) == Some(s)
    decreases |body| - from
  {
    var close := "\"" + Hashes(hashes);
    var t := body[from..] + "\"" + Hashes(hashes) + s;
    assert t == body[from..] + close + s;
    if from == |body| {
      assert t[1..] == Hashes(hashes) + s && t[hashes + 1..] == s;
    } else {
      assert t[1..] == body[from + 1..] + "\"" + Hashes(hashes) + s;
      assert body[from + 1..] + close == (body + close)[from + 1..];
      assert t[1..] == (body + close)[from + 1..] + s;
      assert Hashes(hashes) <= t[1..] ==> Hashes(hashes) <= (body + close)[from + 1..];
      RawCloses(hashes, body, from + 1, s);
    }
  }

  lemma RemarkSteps(c: char, depth: nat, s: string)
    requires c != '/' && c != '*' && depth > 0
    ensures AfterBlock([c] + s, depth) == AfterBlock(s, depth)
    ensures forall x | x == '/' || x == '*' :: AfterBlock([x] + ([c] + s), depth) == AfterBlock([c] + s, depth)
    ensures AfterBlock("/*" + s, depth) == AfterBlock(s, depth + 1)
    ensures AfterBlock("*/" + s, depth + 1) == AfterBlock(s, depth)
  {
    assert ([c] + s)[1..] == s;
    assert forall x: char :: ([x] + ([c] + s))[1..] == [c] + s;
    assert ("/*" + s)[2..] == s && ("*/" + s)[2..] == s;
  }

  lemma {:induction false} RemarkIsSkipped(r: Remark, depth: nat, s: string)
    requires ValidRemark(r) && depth > 0
    ensures AfterBlock(PrintRemark(r) + s, depth) == AfterBlock(s, depth)
    decreases r
  {
    hide AfterBlock;
    match r
    case Stop => assert "" + s == s;
    case Letter(c, rest) =>
      RemarkIsSkipped(rest, depth, s);
      RemarkSteps(c, depth, PrintRemark(rest) + s);
      assert [c] + PrintRemark(rest) + s == [c] + (PrintRemark(rest) + s);
    case Lone(x, c, rest) =>
      RemarkIsSkipped(rest, depth, s);
      RemarkSteps(c, depth, PrintRemark(rest) + s);
      assert [x, c] + PrintRemark(rest) + s == [x] + ([c] + (PrintRemark(rest) + s));
    case Nested(inner, rest) =>
      var tail := PrintRemark(rest) + s;
      RemarkIsSkipped(inner, depth + 1, "*/" + tail);
      RemarkIsSkipped(rest, depth, s);
      RemarkSteps(' ', depth, tail);
      RemarkSteps(' ', depth, PrintRemark(inner) + ("*/" + tail));
      RegroupNested(PrintRemark(inner), PrintRemark(rest), s);
  }

  lemma RegroupNested(a: string, b: string, s: string)
    ensures "/*" + a + "*/" + b + s == "/*" + (a + ("*/" + (b + s)))
  {
    assert "*/" + (b + s) == "*/" + b + s;
    assert a + ("*/" + b + s) == a + "*/" + b + s;
  }

  lemma {:induction false} NameOpensNoRaw(w: string, s: string)
    requires ValidName(w)
    ensures RawOpening(w + " " + s) == None
  {
    var t := w + " " + s;
    if w == "" {
    } else {
      assert t[1..][|w| - 1] == ' ';
    }
  }

  lemma {:induction false} NameIsSkipped(alpha: char -> bool, w: string, s: string)
    requires ValidName(w)
    ensures Lex(alpha, w + " " + s) == Lex(alpha, s)
  {
    var t := w + " " + s;
    NameOpensNoRaw(w, s);
    if w == "" {
      assert t[1..] == s;
    } else {
      assert t[1..] == w[1..] + " " + s;
      NameIsSkipped(alpha, w[1..], s);
    }
  }

  lemma BlankIsSkipped(alpha: char -> bool, s: string)
    ensures Lex(alpha, " " + s) == Lex(alpha, s)
  {
    assert (" " + s)[1..] == s;
  }

  lemma RawOpens(hashes: nat, s: string)
    ensures RawOpening("r" + Hashes(hashes) + "\"" + s) == Some(hashes)
  {
    var t := "r" + Hashes(hashes) + "\"" + s;
    var n := CountHashes(t[1..]);
    assert t[1..] == Hashes(hashes) + "\"" + s;
    assert t[1..][hashes] == '"' && t[1..][..hashes] == Hashes(hashes);
  }

  lemma QuotedIsSkipped(alpha: char -> bool, gs: seq<Glyph>, quote: char, s: string)
    requires forall i | 0 <= i < |gs| :: ValidGlyph(gs[i], quote)
    requires quote == '"' || (quote == '\'' && |gs| == 1 && !alpha('\\'))
    ensures Lex(alpha, [quote] + PrintGlyphs(gs) + [quote] + s) == Lex(alpha, s)
  {
    GlyphsClose(gs, quote, s);
    hide PrintGlyphs, AfterQuoted;
    var p := [quote] + PrintGlyphs(gs) + [quote] + s;
    assert p[1..] == PrintGlyphs(gs) + [quote] + s;
    if quote == '\'' {
      assert PrintGlyphs(gs) == PrintGlyph(gs[0]) by { GlyphsOfOne(gs); }
      assert !IsLifetime(alpha, p);
    }
  }

  lemma GlyphsOfOne(gs: seq<Glyph>)
    requires |gs| == 1
    ensures PrintGlyphs(gs) == PrintGlyph(gs[0])
  {
    assert PrintGlyphs(gs[1..]) == "";
  }

  lemma RawIsSkipped(alpha: char -> bool, hashes: nat, body: string, s: string)
    requires ValidRaw(hashes, body)
    ensures Lex(alpha, "r" + Hashes(hashes) + "\"" + (body + "\"" + Hashes(hashes) + s)) == Lex(alpha, s)
  {
    var tail := body + "\"" + Hashes(hashes) + s;
    var p := "r" + Hashes(hashes) + "\"" + tail;
    RawOpens(hashes, tail);
    RawCloses(hashes, body, 0, s);
    assert body[0..] == body && p[hashes + 2..] == tail;
    hide RawOpening, AfterRaw, CountHashes, ValidRaw;
  }

  lemma BlockIsSkipped(alpha: char -> bool, r: Remark, s: string)
    requires ValidRemark(r)
    ensures Lex(alpha, "/*" + (PrintRemark(r) + ("*/" + s))) == Lex(alpha, s)
  {
    var p := "/*" + (PrintRemark(r) + ("*/" + s));
    assert p[2..] == PrintRemark(r) + ("*/" + s) && ("*/" + s)[2..] == s;
    RemarkIsSkipped(r, 1, "*/" + s);
    assert AfterBlock(p[2..], 1) == Some(s);
    hide PrintRemark, AfterBlock;
  }

  lemma LineIsSkipped(alpha: char -> bool, body: string, s: string)
    requires '\n' !in body
    ensures Lex(alpha, "//" + (body + "\n" + s)) == Lex(alpha, s)
  {
    LineCloses(body, s);
    assert ("//" + (body + "\n" + s))[2..] == body + "\n" + s;
    hide AfterLine;
  }

  lemma LifetimeIsSkipped(alpha: char -> bool, w: string, s: string)
    requires w != "" && (alpha(w[0]) || w[0] == '_') && ValidName(w)
    ensures Lex(alpha, "'" + (w + " " + s)) == Lex(alpha, s)
  {
    NameIsSkipped(alpha, w, s);
    assert ("'" + (w + " " + s))[1..] == w + " " + s;
  }

  lemma Regroup(a: string, b: string, c: string, d: string)
    ensures a + b + c + d == a + (b + c + d)
  {
  }

  lemma RegroupBlock(r: string, s: string)
    ensures "/*" + r + "*/" + s == "/*" + (r + ("*/" + s))
  {
    assert r + ("*/" + s) == r + "*/" + s;
  }

  lemma RegroupRaw(hashes: nat, body: string, s: string)
    ensures "r" + Hashes(hashes) + "\"" + body + "\"" + Hashes(hashes) + s
         == "r" + Hashes(hashes) + "\"" + (body + "\"" + Hashes(hashes) + s)
  {
    hide Hashes;
    var left, quote, hs := "r" + Hashes(hashes) + "\"", "\"", Hashes(hashes);
    assert left + body + quote + hs + s == left + (body + quote + hs + s);
  }

  /** Every printed token followed by a blank is read over. */
  lemma TokenIsSkipped(alpha: char -> bool, t: Token, s: string)
    requires ValidToken(alpha, t) && !alpha('\\')
    ensures Lex(alpha, PrintToken(t) + (" " + s)) == Lex(alpha, s)
  {
    hide Lex, PrintGlyphs, PrintRemark, ValidRemark, ValidName, ValidRaw, Hashes;
    var blank := " " + s;
    BlankIsSkipped(alpha, s);
    match t
    case Name(w) =>
      NameIsSkipped(alpha, w, s);
      assert w + blank == w + " " + s;
    case Lifetime(w) =>
      LifetimeIsSkipped(alpha, w, s);
      assert w + blank == w + " " + s;
      assert "'" + w + blank == "'" + (w + blank);
    case Quoted(gs) => QuotedIsSkipped(alpha, gs, '"', blank);
    case Letters(g) =>
      QuotedIsSkipped(alpha, [g], '\'', blank);
      GlyphsOfOne([g]);
    case Raw(h, body) =>
      RawIsSkipped(alpha, h, body, blank);
      RegroupRaw(h, body, blank);
    case LineRemark(body) =>
      LineIsSkipped(alpha, body, blank);
      Regroup("//", body, "\n", blank);
    case BlockRemark(r) =>
      BlockIsSkipped(alpha, r, blank);
      RegroupBlock(PrintRemark(r), blank);
  }

  lemma DelimiterIsKept(alpha: char -> bool, c: char, s: string)
    requires IsOpener(c) || IsCloser(c)
    ensures Lex(alpha, [c] + s) == Prepend([c], Lex(alpha, s))
  {
    assert ([c] + s)[1..] == s;
  }

  lemma GroupLeavesPair(alpha: char -> bool, k: Bracket, p: string, v: string, q: string, w: string, s: string)
    requires Lex(alpha, p + ([k.Close()] + (q + s))) == Prepend(v, Lex(alpha, [k.Close()] + (q + s)))
    requires Lex(alpha, q + s) == Prepend(w, Lex(alpha, s))
    ensures Lex(alpha, [k.Open()] + p + [k.Close()] + q + s) == Prepend([k.Open()] + v + [k.Close()] + w, Lex(alpha, s))
  {
    hide Lex;
    BracketsAreKnown(k);
    DelimiterIsKept(alpha, k.Close(), q + s);
    DelimiterIsKept(alpha, k.Open(), p + ([k.Close()] + (q + s)));
    Nest([k.Open()], p, [k.Close()], q, s);
    Nest([k.Open()], v, [k.Close()], w, Lex(alpha, s).delimiters);
  }

  lemma Nest(a: string, b: string, c: string, d: string, e: string)
    ensures a + (b + (c + (d + e))) == a + b + c + d + e
  {
    assert b + (c + (d + e)) == b + c + d + e;
    assert a + (b + c + d + e) == a + b + c + d + e;
  }

  /** Reading printed code leaves exactly its groups. */
  lemma {:induction false} CodeLeavesSkeleton(alpha: char -> bool, code: Code, s: string)
    requires ValidCode(alpha, code) && !alpha('\\')
    ensures Lex(alpha, Print(code) + s) == Prepend(Skeleton(code).Word(), Lex(alpha, s))
    decreases code
  {
    hide Lex, PrintToken, ValidToken;
    match code
    case Done => assert Print(code) + s == s;
    case Leaf(t, rest) =>
      assert Print(code) + s == PrintToken(t) + (" " + (Print(rest) + s));
      TokenIsSkipped(alpha, t, Print(rest) + s);
      CodeLeavesSkeleton(alpha, rest, s);
    case Group(k, inner, rest) =>
      CodeLeavesSkeleton(alpha, inner, [k.Close()] + (Print(rest) + s));
      CodeLeavesSkeleton(alpha, rest, s);
      GroupLeavesPair(alpha, k, Print(inner), Skeleton(inner).Word(), Print(rest), Skeleton(rest).Word(), s);
  }

  /** Every printed token tree is accepted. */
  lemma PrintedCodeIsAccepted(alpha: char -> bool, code: Code)
    requires ValidCode(alpha, code) && !alpha('\\')
    ensures Verdict("", Lex(alpha, Print(code))) == Accepted
  {
    CodeLeavesSkeleton(alpha, code, "");
    assert Print(code) + "" == Print(code);
    var w := Skeleton(code).Word();
    assert Lex(alpha, Print(code)).delimiters == w;
    AcceptedIffBalanced(alpha, Print(code));
  }

  // ---------------------------------------------------------------- brackets around printed code

  const PAIRS: seq<(char, char)> := [('(', ')'), ('[', ']'), ('{', '}')]

  /** The bracket of a literal pair. */
  lemma PairIsBracket(i: nat) returns (k: Bracket)
    requires i < 3
    ensures PAIRS[i] == (k.Open(), k.Close())
  {
    k := if i == 0 then Round else if i == 1 then Square else Curly;
  }

  lemma PairsAreDelimiters(i: nat)
    requires i < 3
    ensures IsOpener(PAIRS[i].0) && !IsCloser(PAIRS[i].0) && IsCloser(PAIRS[i].1) && !IsOpener(PAIRS[i].1) && Mate(PAIRS[i].1) == PAIRS[i].0
  {
  }

  lemma ReadsOpenThenCode(alpha: char -> bool, o: char, code: Code, s: string)
    requires ValidCode(alpha, code) && !alpha('\\') && IsOpener(o)
    ensures Lex(alpha, [o] + Print(code) + s) == Prepend([o] + Skeleton(code).Word(), Lex(alpha, s))
  {
    hide Lex, Print, ValidCode;
    CodeLeavesSkeleton(alpha, code, s);
    assert [o] + Print(code) + s == [o] + (Print(code) + s);
    DelimiterIsKept(alpha, o, Print(code) + s);
    assert [o] + (Skeleton(code).Word() + Lex(alpha, s).delimiters) == [o] + Skeleton(code).Word() + Lex(alpha, s).delimiters;
  }

  /** Reading `[o]` and balanced code leaves `o` on the stack. */
  lemma OpenThenBalanced(o: char, f: Forest, w: string)
    requires !IsCloser(o)
    ensures Settle("", [o] + f.Word() + w) == Settle([o], w)
  {
    assert ([o] + f.Word() + w)[1..] == f.Word() + w;
    assert "" + [o] == [o];
    BalancedSettles([o], f, w);
  }

  /** Printed code between a literal pair of brackets is accepted. */
  lemma BracketedIsAccepted(alpha: char -> bool, code: Code, i: nat)
    requires ValidCode(alpha, code) && !alpha('\\') && i < 3
    ensures Verdict("", Lex(alpha, [PAIRS[i].0] + Print(code) + [PAIRS[i].1])) == Accepted
  {
    var k := PairIsBracket(i);
    var whole := Group(k, code, Done);
    PrintedCodeIsAccepted(alpha, whole);
    assert Print(whole) == [k.Open()] + Print(code) + [k.Close()] + "";
    assert [k.Open()] + Print(code) + [k.Close()] + "" == [k.Open()] + Print(code) + [k.Close()];
  }

  /** Without the closer it is reported as unclosed. */
  lemma OpenIsUnclosed(alpha: char -> bool, code: Code, i: nat)
    requires ValidCode(alpha, code) && !alpha('\\') && i < 3
    ensures Verdict("", Lex(alpha, [PAIRS[i].0] + Print(code))) == Unclosed
  {
    var o := PAIRS[i].0;
    PairsAreDelimiters(i);
    ReadsOpenThenCode(alpha, o, code, "");
    assert [o] + Print(code) + "" == [o] + Print(code);
    OpenThenBalanced(o, Skeleton(code), "");
    hide Print, PrintToken, ValidCode;
  }

  /** Without the opener the closer is unmatched, whatever follows. */
  lemma CloseIsUnmatched(alpha: char -> bool, code: Code, i: nat, s: string)
    requires ValidCode(alpha, code) && !alpha('\\') && i < 3
    ensures Verdict("", Lex(alpha, Print(code) + [PAIRS[i].1] + s)) == Unmatched
  {
    hide Lex, Print, ValidCode;
    var c := PAIRS[i].1;
    PairsAreDelimiters(i);
    CodeLeavesSkeleton(alpha, code, [c] + s);
    assert Print(code) + [c] + s == Print(code) + ([c] + s);
    DelimiterIsKept(alpha, c, s);
    BalancedSettles("", Skeleton(code), [c] + Lex(alpha, s).delimiters);
  }

  /** A closer of another pair is unmatched, whatever follows. */
  lemma CrossedIsUnmatched(alpha: char -> bool, code: Code, i: nat, j: nat, s: string)
    requires ValidCode(alpha, code) && !alpha('\\') && i < 3 && j < 3 && i != j
    ensures Verdict("", Lex(alpha, [PAIRS[i].0] + Print(code) + [PAIRS[j].1] + s)) == Unmatched
  {
    hide Lex, Print, ValidCode;
    var o, d := PAIRS[i].0, PAIRS[j].1;
    PairsAreDelimiters(i);
    PairsAreDelimiters(j);
    ReadsOpenThenCode(alpha, o, code, [d] + s);
    assert [o] + Print(code) + [d] + s == [o] + Print(code) + ([d] + s);
    DelimiterIsKept(alpha, d, s);
    OpenThenBalanced(o, Skeleton(code), [d] + Lex(alpha, s).delimiters);
    assert PAIRS[i].0 != PAIRS[j].0;
  }

  // ---------------------------------------------------------------- lexemes left open

  /** Printed code before a text does not change the verdict on it. */
  lemma CodeBefore(alpha: char -> bool, code: Code, s: string)
    requires ValidCode(alpha, code) && !alpha('\\')
    ensures Verdict("", Lex(alpha, Print(code) + s)) == Verdict("", Lex(alpha, s))
  {
    hide Lex, Print, ValidCode;
    CodeLeavesSkeleton(alpha, code, s);
    BalancedSettles("", Skeleton(code), Lex(alpha, s).delimiters);
  }

  lemma {:induction false} GlyphsStayOpen(gs: seq<Glyph>, quote: char)
    requires quote != '\\' && forall i | 0 <= i < |gs| :: ValidGlyph(gs[i], quote)
    ensures AfterQuoted(PrintGlyphs(gs), quote) == None
  {
    if gs == [] {
    } else {
      GlyphsStayOpen(gs[1..], quote);
      var t := PrintGlyphs(gs);
      assert if gs[0].Plain? then t[1..] == PrintGlyphs(gs[1..]) else Drop(t, 2) == PrintGlyphs(gs[1..]);
    }
  }

  lemma {:induction false} RawStaysOpen(hashes: nat, body: string, from: nat)
    requires ValidRaw(hashes, body) && from <= |body|
    ensures AfterRaw(body[from..], hashes) == None
    decreases |body| - from
  {
    if from < |body| {
      RawStaysOpen(hashes, body, from + 1);
      assert body[from..][1..] == body[from + 1..];
      assert (body + "\"" + Hashes(hashes))[from + 1..] == body[from + 1..] + ("\"" + Hashes(hashes));
      assert Hashes(hashes) <= body[from + 1..] ==> Hashes(hashes) <= body[from + 1..] + ("\"" + Hashes(hashes));
    }
  }

  /** Code that ends inside a string is reported as an unterminated string. */
  lemma OpenTextIsUnterminated(alpha: char -> bool, code: Code, gs: seq<Glyph>)
    requires ValidCode(alpha, code) && !alpha('\\') && forall i | 0 <= i < |gs| :: ValidGlyph(gs[i], '"')
    ensures Verdict("", Lex(alpha, Print(code) + ("\"" + PrintGlyphs(gs)))) == Unterminated(Text)
  {
    CodeBefore(alpha, code, "\"" + PrintGlyphs(gs));
    GlyphsStayOpen(gs, '"');
    hide PrintGlyphs, AfterQuoted, Print, ValidCode;
    assert ("\"" + PrintGlyphs(gs))[1..] == PrintGlyphs(gs);
  }

  /** Code that ends at the quote of a character is reported as an unterminated character. */
  lemma OpenCharacterIsUnterminated(alpha: char -> bool, code: Code)
    requires ValidCode(alpha, code) && !alpha('\\')
    ensures Verdict("", Lex(alpha, Print(code) + "'")) == Unterminated(Character)
  {
    CodeBefore(alpha, code, "'");
    hide Print, ValidCode;
    assert "'"[1..] == "";
  }

  /** Code that ends inside a block comment, at any depth, is reported as an unterminated comment. */
  lemma OpenBlockIsUnterminated(alpha: char -> bool, code: Code, r: Remark)
    requires ValidCode(alpha, code) && !alpha('\\') && ValidRemark(r)
    ensures Verdict("", Lex(alpha, Print(code) + ("/*" + PrintRemark(r)))) == Unterminated(BlockComment)
  {
    CodeBefore(alpha, code, "/*" + PrintRemark(r));
    RemarkIsSkipped(r, 1, "");
    hide PrintRemark, AfterBlock, Print, ValidCode, ValidRemark;
    assert PrintRemark(r) + "" == PrintRemark(r) && ("/*" + PrintRemark(r))[2..] == PrintRemark(r);
    NothingAfterBlock();
  }

  lemma NothingAfterBlock()
    ensures AfterBlock("", 1) == None
  {
  }

  /** Code that ends inside a raw string is reported as an unterminated raw string. */
  lemma OpenRawIsUnterminated(alpha: char -> bool, code: Code, hashes: nat, body: string)
    requires ValidCode(alpha, code) && !alpha('\\') && ValidRaw(hashes, body)
    ensures Verdict("", Lex(alpha, Print(code) + ("r" + Hashes(hashes) + "\"" + body))) == Unterminated(RawText)
  {
    var p := "r" + Hashes(hashes) + "\"" + body;
    CodeBefore(alpha, code, p);
    RawOpens(hashes, body);
    RawStaysOpen(hashes, body, 0);
    assert body[0..] == body && p[hashes + 2..] == body;
    hide RawOpening, AfterRaw, CountHashes, ValidRaw, Print, ValidCode;
  }

  /** A line comment may end the text. */
  lemma LineCommentMayEnd(alpha: char -> bool, code: Code, body: string)
    requires ValidCode(alpha, code) && !alpha('\\') && '\n' !in body
    ensures Verdict("", Lex(alpha, Print(code) + ("//" + body))) == Accepted
  {
    CodeBefore(alpha, code, "//" + body);
    LineStaysOpen(body);
    assert ("//" + body)[2..] == body;
    hide AfterLine, Print, ValidCode;
  }

  lemma {:induction false} LineStaysOpen(body: string)
    requires '\n' !in body
    ensures AfterLine(body) == ""
  {
    if body == "" {
    } else {
      LineStaysOpen(body[1..]);
    }
  }
}
