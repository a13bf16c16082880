/**
 The delimiter scanner for Rust sources (tools/validate_project.py, scan_rust).

 `ScanRust` is the loop with its six modes, its nesting counter and its stack.  It is proved against
 a reading of the text by whole lexemes (`Lex`), and the stack against the grammar of balanced words
 (`Forest`).  Whether a character is a letter is an arbitrary predicate `alpha`: nothing depends on
 which one.
 */
module RustScanner {
  import opened Wrappers

  datatype Mode = Normal | LineComment | BlockComment | Text | Character | RawText

  /** What is left of a text once lexemes are erased, and the lexeme left open at its end, if any. */
  datatype Lexed = Lexed(delimiters: string, open: Mode)

  datatype Outcome = Accepted | Unmatched | Unterminated(mode: Mode) | Unclosed

  // ---------------------------------------------------------------- lexemes

  predicate IsOpener(c: char) { c == '(' || c == '[' || c == '{' }

  predicate IsCloser(c: char) { c == ')' || c == ']' || c == '}' }

  /** The opener that a closer asks for. */
  function Mate(closer: char): char {
    if closer == ')' then '(' else if closer == ']' then '[' else '{'
  }

  function Drop(s: string, n: nat): string {
    if n >= |s| then "" else s[n..]
  }

  predicate NextIs(s: string, c: char) { |s| > 1 && s[1] == c }

  function Hashes(n: nat): (s: string)
    ensures |s| == n
  {
    seq(n, _ => '#')
  }

  function CountHashes(s: string): (n: nat)
    ensures n <= |s| && (forall i | 0 <= i < n :: s[i] == '#') && (n < |s| ==> s[n] != '#')
  {
    if s == "" || s[0] != '#' then 0 else 1 + CountHashes(s[1..])
  }

  /** The number of hashes of the raw string that starts here, if one does. */
  function RawOpening(s: string): (h: Option<nat>)
    ensures h.Some? ==> h.value + 1 < |s|
  {
    if s == "" || s[0] != 'r' then None else
      var n := CountHashes(s[1..]);
      if n + 1 < |s| && s[n + 1] == '"' then Some(n) else None
  }

  function AfterLine(s: string): (rest: string)
    ensures |rest| <= |s|
  {
    if s == "" then "" else if s[0] == '\n' then s[1..] else AfterLine(s[1..])
  }

  function AfterBlock(s: string, depth: nat): (rest: Option<string>)
    requires depth > 0
    ensures rest.Some? ==> |rest.value| <= |s|
  {
    if s == "" then None
    else if s[0] == '/' && NextIs(s, '*') then AfterBlock(s[2..], depth + 1)
    else if s[0] == '*' && NextIs(s, '/') then
      if depth == 1 then Some(s[2..]) else AfterBlock(s[2..], depth - 1)
    else AfterBlock(s[1..], depth)
  }

  function AfterQuoted(s: string, quote: char): (rest: Option<string>)
    ensures rest.Some? ==> |rest.value| <= |s|
    decreases |s|
  {
    if s == "" then None
    else if s[0] == '\\' then AfterQuoted(Drop(s, 2), quote)
    else if s[0] == quote then Some(s[1..])
    else AfterQuoted(s[1..], quote)
  }

  function AfterRaw(s: string, hashes: nat): (rest: Option<string>)
    ensures rest.Some? ==> |rest.value| <= |s|
  {
    if s == "" then None
    else if s[0] == '"' && Hashes(hashes) <= s[1..] then Some(s[hashes + 1..])
    else AfterRaw(s[1..], hashes)
  }

  /** A quote that opens a lifetime rather than a character literal. */
  predicate IsLifetime(alpha: char -> bool, s: string) {
    |s| > 1 && (alpha(s[1]) || s[1] == '_') && !(|s| > 2 && s[2] == '\'')
  }

  /** The text read lexeme by lexeme. */
  function Lex(alpha: char -> bool, s: string): Lexed
    decreases |s|, 0
  {
    if s == "" then Lexed("", Normal)
    else if s[0] == '/' && NextIs(s, '/') then Lex(alpha, AfterLine(s[2..]))
    else if s[0] == '/' && NextIs(s, '*') then LexAfter(alpha, AfterBlock(s[2..], 1), BlockComment)
    else if RawOpening(s).Some? then
      var h := RawOpening(s).value;
      LexAfter(alpha, AfterRaw(s[h + 2..], h), RawText)
    else if s[0] == '"' then LexAfter(alpha, AfterQuoted(s[1..], '"'), Text)
    else if s[0] == '\'' && !IsLifetime(alpha, s) then LexAfter(alpha, AfterQuoted(s[1..], '\''), Character)
    else if IsOpener(s[0]) || IsCloser(s[0]) then Prepend([s[0]], Lex(alpha, s[1..]))
    else Lex(alpha, s[1..])
  }

  function LexAfter(alpha: char -> bool, rest: Option<string>, mode: Mode): Lexed
    decreases if rest.Some? then |rest.value| else 0, 1
  {
    if rest.None? then Lexed("", mode) else Lex(alpha, rest.value)
  }

  function Prepend(w: string, l: Lexed): Lexed { Lexed(w + l.delimiters, l.open) }

  // ---------------------------------------------------------------- balance

  /** The stack after reading `w`, or None at the first closer that does not match. */
  function Settle(stack: string, w: string): Option<string>
    decreases |w|
  {
    if w == "" then Some(stack)
    else if !IsCloser(w[0]) then Settle(stack + [w[0]], w[1..])
    else if stack == "" || stack[|stack| - 1] != Mate(w[0]) then None
    else Settle(stack[..|stack| - 1], w[1..])
  }

  function Verdict(stack: string, l: Lexed): Outcome {
    var end := Settle(stack, l.delimiters);
    if end.None? then Unmatched
    else if l.open != Normal then Unterminated(l.open)
    else if end.value != "" then Unclosed
    else Accepted
  }

  datatype Bracket = Round | Square | Curly {
    function Open(): char {
      match this
      case Round => '('
      case Square => '['
      case Curly => '{'
    }

    function Close(): char {
      match this
      case Round => ')'
      case Square => ']'
      case Curly => '}'
    }
  }

  /** Balanced words, as the grammar W -> empty | open W close W. */
  datatype Forest = Bare | Pair(kind: Bracket, inner: Forest, rest: Forest) {
    function Word(): string {
      if Bare? then "" else [kind.Open()] + inner.Word() + [kind.Close()] + rest.Word()
    }
  }

  /** The scanner's tables are those of the three brackets. */
  lemma BracketsAreKnown(b: Bracket)
    ensures IsOpener(b.Open()) && !IsCloser(b.Open()) && IsCloser(b.Close()) && Mate(b.Close()) == b.Open()
  {
  }

  lemma CloserHasBracket(c: char) returns (b: Bracket)
    requires IsCloser(c)
    ensures b.Close() == c && b.Open() == Mate(c)
  {
    b := if c == ')' then Round else if c == ']' then Square else Curly;
  }

  ghost predicate Balanced(w: string) {
    exists f: Forest :: f.Word() == w
  }

  lemma {:induction false} BalancedSettles(stack: string, f: Forest, w: string)
    ensures Settle(stack, f.Word() + w) == Settle(stack, w)
    decreases f
  {
    match f
    case Bare => assert "" + w == w;
    case Pair(k, inner, rest) =>
      BracketsAreKnown(k);
      var tail := [k.Close()] + (rest.Word() + w);
      assert f.Word() + w == [k.Open()] + (inner.Word() + tail);
      assert (f.Word() + w)[1..] == inner.Word() + tail;
      var pushed := stack + [k.Open()];
      BalancedSettles(pushed, inner, tail);
      assert tail[1..] == rest.Word() + w && pushed[..|pushed| - 1] == stack;
      BalancedSettles(stack, rest, w);
  }

  /** `w` is a balanced part and, under a nonempty stack, the closer of its top and a settling rest. */
  ghost predicate Splits(stack: string, w: string, f: Forest, kind: Bracket, rest: string) {
    if stack == "" then w == f.Word() else
      && kind.Open() == stack[|stack| - 1]
      && w == f.Word() + [kind.Close()] + rest
      && Settle(stack[..|stack| - 1], rest) == Some("")
  }

  ghost predicate AllDelimiters(w: string) {
    forall i | 0 <= i < |w| :: IsOpener(w[i]) || IsCloser(w[i])
  }

  lemma {:induction false} SettlesSplits(stack: string, w: string) returns (f: Forest, kind: Bracket, rest: string)
    requires Settle(stack, w) == Some("") && AllDelimiters(w)
    ensures Splits(stack, w, f, kind, rest) && |rest| <= |w| && AllDelimiters(rest)
    decreases |w|
  {
    if w == "" {
      f, kind, rest := Bare, Round, "";
    } else if IsCloser(w[0]) {
      f, rest := Bare, w[1..];
      kind := CloserHasBracket(w[0]);
      assert w == f.Word() + [kind.Close()] + rest;
    } else {
      var pushed := stack + [w[0]];
      var inner, k, after := SettlesSplits(pushed, w[1..]);
      assert pushed[..|pushed| - 1] == stack && pushed[|pushed| - 1] == w[0];
      var next;
      next, kind, rest := SettlesSplits(stack, after);
      f := Pair(k, inner, next);
      assert w == [w[0]] + w[1..];
      JoinSplit(stack, w, k, inner, after, next, kind, rest);
    }
  }

  lemma JoinSplit(stack: string, w: string, k: Bracket, inner: Forest, after: string, next: Forest, kind: Bracket, rest: string)
    requires Splits(stack, after, next, kind, rest)
    requires w == [k.Open()] + (inner.Word() + [k.Close()] + after)
    ensures Splits(stack, w, Pair(k, inner, next), kind, rest)
  {
    var left := [k.Open()] + inner.Word() + [k.Close()];
    assert w == left + after && Pair(k, inner, next).Word() == left + next.Word();
    if stack != "" {
      Regroup(left, next.Word(), [kind.Close()], rest);
    }
  }

  lemma Regroup(a: string, b: string, c: string, d: string)
    ensures a + (b + c + d) == (a + b) + c + d
  {
  }

  lemma {:induction false} LexYieldsDelimiters(alpha: char -> bool, s: string)
    ensures AllDelimiters(Lex(alpha, s).delimiters)
    decreases |s|
  {
    if s == "" {
    } else if s[0] == '/' && NextIs(s, '/') {
      LexYieldsDelimiters(alpha, AfterLine(s[2..]));
    } else if s[0] == '/' && NextIs(s, '*') {
      var r := AfterBlock(s[2..], 1);
      if r.Some? { LexYieldsDelimiters(alpha, r.value); }
    } else if RawOpening(s).Some? {
      var r := AfterRaw(s[RawOpening(s).value + 2..], RawOpening(s).value);
      if r.Some? { LexYieldsDelimiters(alpha, r.value); }
    } else if s[0] == '"' {
      var r := AfterQuoted(s[1..], '"');
      if r.Some? { LexYieldsDelimiters(alpha, r.value); }
    } else if s[0] == '\'' && !IsLifetime(alpha, s) {
      var r := AfterQuoted(s[1..], '\'');
      if r.Some? { LexYieldsDelimiters(alpha, r.value); }
    } else {
      LexYieldsDelimiters(alpha, s[1..]);
    }
  }

  /** Acceptance means: every lexeme is closed and what remains is a balanced word. */
  lemma {:induction false} AcceptedIffBalanced(alpha: char -> bool, s: string)
    ensures Verdict("", Lex(alpha, s)) == Accepted
       <==> Lex(alpha, s).open == Normal && Balanced(Lex(alpha, s).delimiters)
  {
    var l := Lex(alpha, s);
    LexYieldsDelimiters(alpha, s);
    if Settle("", l.delimiters) == Some("") {
      var f, _, _ := SettlesSplits("", l.delimiters);
      assert f.Word() == l.delimiters;
    }
    if Balanced(l.delimiters) {
      var f: Forest :| f.Word() == l.delimiters;
      BalancedSettles("", f, "");
      assert f.Word() + "" == f.Word();
    }
  }

  // ---------------------------------------------------------------- the scanner

  /** What the text from here on yields when the scanner stands in the given mode. */
  function Resume(alpha: char -> bool, s: string, mode: Mode, depth: nat, hashes: nat): Lexed
    requires mode == BlockComment ==> depth > 0
  {
    match mode
    case Normal => Lex(alpha, s)
    case LineComment => Lex(alpha, AfterLine(s))
    case BlockComment => LexAfter(alpha, AfterBlock(s, depth), BlockComment)
    case Text => LexAfter(alpha, AfterQuoted(s, '"'), Text)
    case Character => LexAfter(alpha, AfterQuoted(s, '\''), Character)
    case RawText => LexAfter(alpha, AfterRaw(s, hashes), RawText)
  }

  lemma ResumeInComment(alpha: char -> bool, s: string, depth: nat, hashes: nat)
    requires s != ""
    ensures Resume(alpha, s, LineComment, depth, hashes)
         == Resume(alpha, s[1..], if s[0] == '\n' then Normal else LineComment, depth, hashes)
    ensures depth > 0 ==> (Resume(alpha, s, BlockComment, depth, hashes) ==
              if s[0] == '/' && NextIs(s, '*') then Resume(alpha, Drop(s, 2), BlockComment, depth + 1, hashes)
              else if s[0] == '*' && NextIs(s, '/') then
                if depth == 1 then Resume(alpha, Drop(s, 2), Normal, depth - 1, hashes)
                else Resume(alpha, Drop(s, 2), BlockComment, depth - 1, hashes)
              else Resume(alpha, s[1..], BlockComment, depth, hashes))
  {
  }

  lemma ResumeInLiteral(alpha: char -> bool, s: string, mode: Mode, depth: nat, hashes: nat)
    requires s != "" && (mode == Text || mode == Character || mode == RawText)
    ensures mode != RawText ==> (Resume(alpha, s, mode, depth, hashes) ==
              if s[0] == '\\' then Resume(alpha, Drop(s, 2), mode, depth, hashes)
              else if s[0] == (if mode == Text then '"' else '\'') then Resume(alpha, s[1..], Normal, depth, hashes)
              else Resume(alpha, s[1..], mode, depth, hashes))
    ensures mode == RawText ==> (Resume(alpha, s, mode, depth, hashes) ==
              if s[0] == '"' && Hashes(hashes) <= s[1..] then Resume(alpha, s[hashes + 1..], Normal, depth, hashes)
              else Resume(alpha, s[1..], mode, depth, hashes))
  {
  }

  lemma ResumeInCode(alpha: char -> bool, s: string, depth: nat, hashes: nat)
    requires s != ""
    ensures Resume(alpha, s, Normal, depth, hashes) ==
              if s[0] == '/' && NextIs(s, '/') then Resume(alpha, Drop(s, 2), LineComment, depth, hashes)
              else if s[0] == '/' && NextIs(s, '*') then Resume(alpha, Drop(s, 2), BlockComment, 1, hashes)
              else if RawOpening(s).Some? then
                Resume(alpha, Drop(s, RawOpening(s).value + 2), RawText, depth, RawOpening(s).value)
              else if s[0] == '"' then Resume(alpha, s[1..], Text, depth, hashes)
              else if s[0] == '\'' && !IsLifetime(alpha, s) then Resume(alpha, s[1..], Character, depth, hashes)
              else if IsOpener(s[0]) || IsCloser(s[0]) then Prepend([s[0]], Resume(alpha, s[1..], Normal, depth, hashes))
              else Resume(alpha, s[1..], Normal, depth, hashes)
    ensures Resume(alpha, s, Normal, depth, hashes) == Resume(alpha, s, Normal, 0, 0)
  {
  }

  lemma VerdictAtEnd(alpha: char -> bool, stack: string, mode: Mode, depth: nat, hashes: nat)
    requires mode == BlockComment ==> depth > 0
    ensures Verdict(stack, Resume(alpha, "", mode, depth, hashes)) ==
              if mode != Normal && mode != LineComment then Unterminated(mode)
              else if stack != "" then Unclosed
              else Accepted
  {
  }

  /** Reading one delimiter moves it from the text to the stack, or ends the scan. */
  lemma VerdictOnDelimiter(stack: string, c: char, l: Lexed)
    ensures IsOpener(c) ==> Verdict(stack, Prepend([c], l)) == Verdict(stack + [c], l)
    ensures IsCloser(c) && (stack == "" || stack[|stack| - 1] != Mate(c)) ==> Verdict(stack, Prepend([c], l)) == Unmatched
    ensures IsCloser(c) && stack != "" && stack[|stack| - 1] == Mate(c) ==>
              Verdict(stack, Prepend([c], l)) == Verdict(stack[..|stack| - 1], l)
  {
    assert ([c] + l.delimiters)[1..] == l.delimiters;
  }

  /** The rest of a text from one position on, read as the text from a later one. */
  lemma RestOf(text: string, at: nat, n: nat)
    requires at <= |text|
    ensures at + n <= |text| ==> text[at..][n..] == text[at + n..] == Drop(text, at + n)
    ensures Drop(text[at..], n) == Drop(text, at + n)
  {
  }

  /** Where code goes on, as positions of the whole text. */
  lemma CodeStep(alpha: char -> bool, text: string, at: nat)
    requires at < |text|
    ensures Resume(alpha, Drop(text, at), Normal, 0, 0) ==
            if text[at] == '/' && NextIs(text[at..], '/') then Resume(alpha, Drop(text, at + 2), LineComment, 0, 0)
            else if text[at] == '/' && NextIs(text[at..], '*') then Resume(alpha, Drop(text, at + 2), BlockComment, 1, 0)
            else if RawOpening(text[at..]).Some? then
              Resume(alpha, Drop(text, at + RawOpening(text[at..]).value + 2), RawText, 0, RawOpening(text[at..]).value)
            else if text[at] == '"' then Resume(alpha, Drop(text, at + 1), Text, 0, 0)
            else if text[at] == '\'' && !IsLifetime(alpha, text[at..]) then Resume(alpha, Drop(text, at + 1), Character, 0, 0)
            else if IsOpener(text[at]) || IsCloser(text[at]) then Prepend([text[at]], Resume(alpha, Drop(text, at + 1), Normal, 0, 0))
            else Resume(alpha, Drop(text, at + 1), Normal, 0, 0)
  {
    hide Lex, Resume, RawOpening, IsLifetime, Prepend, Drop;
    ResumeInCode(alpha, text[at..], 0, 0);
    RestOf(text, at, 0);
    RestOf(text, at, 1);
    RestOf(text, at, 2);
    if RawOpening(text[at..]).Some? {
      RestOf(text, at, RawOpening(text[at..]).value + 2);
    }
  }

  /** One step of the scanner outside literals and comments; `stop` reports an unmatched closer. */
  method StepInCode(alpha: char -> bool, text: string, at: nat, before: string)
    returns (i: nat, mode: Mode, depth: nat, hashes: nat, stack: string, stop: bool)
    requires at < |text|
    ensures i > at && (mode == BlockComment ==> depth > 0)
    ensures stop ==> Verdict(before, Resume(alpha, Drop(text, at), Normal, 0, 0)) == Unmatched
    ensures !stop ==> (Verdict(stack, Resume(alpha, Drop(text, i), mode, depth, hashes))
                       == Verdict(before, Resume(alpha, Drop(text, at), Normal, 0, 0)))
  {
    hide Lex, Resume, Verdict, Settle, RawOpening, IsLifetime, Prepend, Drop;
    i, mode, depth, hashes, stack, stop := at, Normal, 0, 0, before, false;
    var c := text[i];
    CodeStep(alpha, text, at);
    VerdictOnDelimiter(stack, c, Resume(alpha, Drop(text, at + 1), Normal, 0, 0));
    if c == '/' && i + 1 < |text| && text[i + 1] == '/' {
      mode := LineComment;
      i := i + 2;
    } else if c == '/' && i + 1 < |text| && text[i + 1] == '*' {
      mode := BlockComment;
      depth := 1;
      i := i + 2;
    } else if RawOpening(text[i..]).Some? {
      hashes := RawOpening(text[i..]).value;
      mode := RawText;
      i := i + hashes + 2;
    } else if c == '"' {
      mode := Text;
      i := i + 1;
    } else if c == '\'' {
      if !IsLifetime(alpha, text[i..]) {
        mode := Character;
      }
      i := i + 1;
    } else {
      if IsOpener(c) {
        stack := stack + [c];
      } else if IsCloser(c) {
        if stack == "" || stack[|stack| - 1] != Mate(c) {
          stop := true;
        } else {
          stack := stack[..|stack| - 1];
        }
      }
      i := i + 1;
    }
  }

  /** One step inside a comment. */
  method StepInComment(ghost alpha: char -> bool, text: string, at: nat, was: Mode, level: nat, ghost hashes: nat)
    returns (i: nat, mode: Mode, depth: nat)
    requires at < |text| && (was == LineComment || (was == BlockComment && level > 0))
    ensures i > at && (mode == BlockComment ==> depth > 0)
    ensures Resume(alpha, Drop(text, i), mode, depth, hashes) == Resume(alpha, Drop(text, at), was, level, hashes)
  {
    hide Lex, Resume, AfterLine, AfterBlock;
    i, mode, depth := at, was, level;
    var c := text[i];
    ResumeInComment(alpha, text[i..], depth, hashes);
    RestOf(text, i, 1);
    RestOf(text, i, 2);
    if mode == LineComment {
      if c == '\n' { mode := Normal; }
      i := i + 1;
    } else if c == '/' && i + 1 < |text| && text[i + 1] == '*' {
      depth := depth + 1;
      i := i + 2;
    } else if c == '*' && i + 1 < |text| && text[i + 1] == '/' {
      depth := depth - 1;
      i := i + 2;
      if depth == 0 { mode := Normal; }
    } else {
      i := i + 1;
    }
  }

  /** One step inside a string or a character. */
  method StepInQuoted(ghost alpha: char -> bool, text: string, at: nat, was: Mode, ghost depth: nat, ghost hashes: nat)
    returns (i: nat, mode: Mode)
    requires at < |text| && (was == Text || was == Character)
    ensures i > at && mode != BlockComment
    ensures Resume(alpha, Drop(text, i), mode, depth, hashes) == Resume(alpha, Drop(text, at), was, depth, hashes)
  {
    hide Lex, Resume, AfterQuoted;
    i, mode := at, was;
    var c := text[i];
    ResumeInLiteral(alpha, text[i..], mode, depth, hashes);
    RestOf(text, i, 1);
    RestOf(text, i, 2);
    if c == '\\' {
      i := i + 2;
    } else {
      if c == (if mode == Text then '"' else '\'') { mode := Normal; }
      i := i + 1;
    }
  }

  /** Where a raw string goes on, as positions of the whole text. */
  lemma RawStep(alpha: char -> bool, text: string, at: nat, depth: nat, hashes: nat)
    requires at < |text|
    ensures Hashes(hashes) <= text[at + 1..] ==> at + 1 + hashes <= |text|
    ensures Resume(alpha, Drop(text, at), RawText, depth, hashes) ==
            if text[at] == '"' && Hashes(hashes) <= text[at + 1..]
            then Resume(alpha, Drop(text, at + hashes + 1), Normal, depth, hashes)
            else Resume(alpha, Drop(text, at + 1), RawText, depth, hashes)
  {
    hide Lex, Resume, AfterRaw;
    var s := text[at..];
    ResumeInLiteral(alpha, s, RawText, depth, hashes);
    RestOf(text, at, 1);
    if Hashes(hashes) <= text[at + 1..] {
      RestOf(text, at, hashes + 1);
    }
  }

  /** One step inside a raw string. */
  method StepInRaw(ghost alpha: char -> bool, text: string, at: nat, ghost depth: nat, hashes: nat)
    returns (i: nat, mode: Mode)
    requires at < |text|
    ensures i > at && mode != BlockComment
    ensures Resume(alpha, Drop(text, i), mode, depth, hashes) == Resume(alpha, Drop(text, at), RawText, depth, hashes)
  {
    hide Lex, Resume, AfterRaw, Hashes, Drop;
    i, mode := at, RawText;
    RawStep(alpha, text, at, depth, hashes);
    if text[i] == '"' && Hashes(hashes) <= text[i + 1..] {
      i := i + hashes;
      mode := Normal;
    }
    i := i + 1;
  }

  /** The scanner: what it reports is the verdict on the text read by lexemes. */
  method ScanRust(alpha: char -> bool, text: string) returns (outcome: Outcome)
    ensures outcome == Verdict("", Lex(alpha, text))
    ensures outcome == Accepted <==> Lex(alpha, text).open == Normal && Balanced(Lex(alpha, text).delimiters)
  {
    AcceptedIffBalanced(alpha, text);
    var stack := "";
    var i: nat := 0;
    var depth: nat := 0;
    var mode := Normal;
    var hashes: nat := 0;
    assert Drop(text, 0) == text;
    while i < |text|
      invariant mode == BlockComment ==> depth > 0
      invariant Verdict(stack, Resume(alpha, Drop(text, i), mode, depth, hashes)) == Verdict("", Lex(alpha, text))
    {
      if mode == LineComment || mode == BlockComment {
        i, mode, depth := StepInComment(alpha, text, i, mode, depth, hashes);
      } else if mode == RawText {
        i, mode := StepInRaw(alpha, text, i, depth, hashes);
      } else if mode != Normal {
        i, mode := StepInQuoted(alpha, text, i, mode, depth, hashes);
      } else {
        var stop;
        i, mode, depth, hashes, stack, stop := StepInCode(alpha, text, i, stack);
        if stop {
          return Unmatched;
        }
      }
    }
    VerdictAtEnd(alpha, stack, mode, depth, hashes);
    if mode == Text || mode == Character || mode == RawText || mode == BlockComment {
      return Unterminated(mode);
    }
    if stack != "" {
      return Unclosed;
    }
    return Accepted;
  }
}
