/** The scanner (scanner/scanner.go), as a pure function over the source
    text. The Go scanner reads runes through a one-rune lookahead buffer; on
    ASCII input that buffer only ever holds the characters at `current` and
    `current + 1`, so `peek` and `peekNext` are the indexings `Peek(s, i)` and
    `PeekNext(s, i)` below, and `sc.current` is the index itself. */
module Scanner {
  import opened Options
  import opened Tokens
  import LoxError
  import Decimal

  predicate IsAlpha(c: char) {
    'a' <= c <= 'z' || 'A' <= c <= 'Z' || c == '_'
  }

  predicate IsAlphaNumeric(c: char) {
    IsAlpha(c) || Decimal.IsDigit(c)
  }

  predicate NotQuote(c: char) {
    c != '"'
  }

  predicate NotNewline(c: char) {
    c != '\n'
  }

  /** `peek`: the character at `i`, or NUL once the source is exhausted. */
  function Peek(s: string, i: nat): char {
    if i < |s| then s[i] else '\0'
  }

  /** `peekNext`: the character after `i`, or NUL. */
  function PeekNext(s: string, i: nat): char {
    if i + 1 < |s| then s[i + 1] else '\0'
  }

  /** The number of newline characters in `s[i..j]`: how far the scanner's
      line counter moves while it consumes that range. */
  function Newlines(s: string, i: nat, j: nat): nat
    requires i <= j <= |s|
    decreases j - i
  {
    if i == j then 0 else Newlines(s, i, j - 1) + (if s[j - 1] == '\n' then 1 else 0)
  }

  lemma {:induction false} NewlinesSplit(s: string, i: nat, j: nat, k: nat)
    requires i <= j <= k <= |s|
    ensures Newlines(s, i, k) == Newlines(s, i, j) + Newlines(s, j, k)
    decreases k - j
  {
    if j < k {
      NewlinesSplit(s, i, j, k - 1);
    }
  }

  lemma {:induction false} NoNewlines(s: string, i: nat, j: nat)
    requires i <= j <= |s|
    requires forall k :: i <= k < j ==> s[k] != '\n'
    ensures Newlines(s, i, j) == 0
    decreases j - i
  {
    if i < j {
      NoNewlines(s, i, j - 1);
    }
  }

  /** The end of the longest run starting at `i` whose characters satisfy `p`:
      the `for p(sc.peek()) { sc.advance() }` loops of the scanner. */
  function Span(s: string, i: nat, p: char -> bool): (j: nat)
    requires i <= |s|
    ensures i <= j <= |s|
    ensures forall k :: i <= k < j ==> p(s[k])
    ensures j < |s| ==> !p(s[j])
    decreases |s| - i
  {
    if i < |s| && p(s[i]) then Span(s, i + 1, p) else i
  }

  /** A run ends exactly where `p` first fails. */
  lemma {:induction false} SpanStopsAt(s: string, i: nat, j: nat, p: char -> bool)
    requires i <= j <= |s|
    requires forall k :: i <= k < j ==> p(s[k])
    requires j == |s| || !p(s[j])
    ensures Span(s, i, p) == j
    decreases j - i
  {
    if i < j {
      SpanStopsAt(s, i + 1, j, p);
    }
  }

  /** What one call of `scanToken` does: where the next token starts, the line
      counter afterwards, and the token or diagnostic it produced, if any. */
  datatype Step = Step(next: nat, line: int, token: Option<Token>, error: Option<LoxError.Diagnostic>)

  /** `addToken`: the lexeme is the source text of the current scan step. */
  function Emit(s: string, start: nat, current: nat, kind: Kind, literal: Option<Literal>, line: int): (r: Step)
    requires start < current <= |s|
    ensures r.next == current && r.line == line && r.error.None?
    ensures r.token == Some(Token(kind, s[start..current], literal, line))
  {
    Step(current, line, Some(Token(kind, s[start..current], literal, line)), None)
  }

  /** A single character that is not a newline moves no line counter. */
  lemma OneCharNoNewline(s: string, start: nat)
    requires start < |s| && s[start] != '\n'
    ensures Newlines(s, start, start + 1) == 0
  {
    assert Newlines(s, start, start) == 0;
  }

  /** `!`, `=`, `<` and `>`: the two-character form when the next character is
      `=` (`sc.match('=')`), the one-character form otherwise. */
  function OneOrTwo(s: string, start: nat, line: int, one: Kind, two: Kind): (r: Step)
    requires start < |s| && s[start] != '\n'
    ensures r.token.Some? && r.error.None? && r.line == line
    ensures start < r.next <= |s| && r.line == line + Newlines(s, start, r.next)
    ensures start + 1 < |s| && s[start + 1] == '=' ==> r.next == start + 2 && r.token.value.kind == two
    ensures !(start + 1 < |s| && s[start + 1] == '=') ==> r.next == start + 1 && r.token.value.kind == one
  {
    if start + 1 < |s| && s[start + 1] == '=' then
      NoNewlines(s, start, start + 2);
      Emit(s, start, start + 2, two, None, line)
    else
      OneCharNoNewline(s, start);
      Emit(s, start, start + 1, one, None, line)
  }

  /** A `//` comment: skipped up to, not including, the next newline. */
  function CommentStep(s: string, start: nat, line: int): (r: Step)
    requires start + 1 < |s| && s[start] == '/' && s[start + 1] == '/'
    ensures r.token.None? && r.error.None? && r.line == line
    ensures start + 2 <= r.next <= |s| && r.line == line + Newlines(s, start, r.next)
  {
    var end := Span(s, start + 2, NotNewline);
    NoNewlines(s, start, end);
    Step(end, line, None, None)
  }

  /** `scanString`, entered just after the opening quote at `start`. An
      unterminated string is reported one line above the final line counter. */
  function StringStep(s: string, start: nat, line: int): (r: Step)
    requires start < |s| && s[start] == '"'
    ensures start < r.next <= |s| && r.line == line + Newlines(s, start, r.next)
    ensures r.token.Some? <==> r.error.None?
  {
    var close := Span(s, start + 1, NotQuote);
    var lines := line + Newlines(s, start + 1, close);
    if close == |s| then
      NewlinesSplit(s, start, start + 1, |s|);
      Step(|s|, lines, None, Some(LoxError.Error(lines - 1, "", "Unterminated string.")))
    else
      NewlinesSplit(s, start, start + 1, close);
      NewlinesSplit(s, start, close, close + 1);
      OneCharNoNewline(s, start);
      OneCharNoNewline(s, close);
      Emit(s, start, close + 1, StringLiteral, Some(StringValue(s[start + 1..close])), lines)
  }

  /** `number`, entered just after the first digit at `start`: a maximal digit
      run, then a `.` and a second digit run only if a digit follows the `.`. */
  function NumberStep(s: string, start: nat, line: int): (r: Step)
    requires start < |s| && Decimal.IsDigit(s[start])
    ensures r.token.Some? && r.error.None? && r.line == line
    ensures start < r.next <= |s| && r.line == line + Newlines(s, start, r.next)
    ensures r.token.value.kind == NumberLiteral
  {
    var whole := Span(s, start + 1, Decimal.IsDigit);
    if Peek(s, whole) == '.' && Decimal.IsDigit(PeekNext(s, whole)) then
      var end := Span(s, whole + 1, Decimal.IsDigit);
      NoNewlines(s, start, end);
      Emit(s, start, end, NumberLiteral, Some(NumberValue(Decimal.DecimalValue(s[start..whole], s[whole + 1..end]))), line)
    else
      NoNewlines(s, start, whole);
      Emit(s, start, whole, NumberLiteral, Some(NumberValue(Decimal.DecimalValue(s[start..whole], ""))), line)
  }

  /** The identifier rule: a letter or underscore followed by letters, digits
      and underscores; a reserved word becomes its keyword kind, any other word
      IDENTIFIER. `scanToken` has no such branch (letters fall through to
      "Unexpected character."); this is the rule the scanner's tests expect. */
  function IdentifierStep(s: string, start: nat, line: int): (r: Step)
    requires start < |s| && IsAlpha(s[start])
    ensures r.token.Some? && r.error.None? && r.line == line
    ensures start < r.next <= |s| && r.line == line + Newlines(s, start, r.next)
  {
    var end := Span(s, start + 1, IsAlphaNumeric);
    NoNewlines(s, start, end);
    Emit(s, start, end, KeywordKind(s[start..end]).GetOr(Identifier), None, line)
  }

  /** A one-character token. */
  function Single(s: string, start: nat, kind: Kind, line: int): (r: Step)
    requires start < |s| && s[start] != '\n'
    ensures r.next == start + 1 && r.line == line + Newlines(s, start, r.next)
    ensures r.token == Some(Token(kind, [s[start]], None, line)) && r.error.None?
  {
    OneCharNoNewline(s, start);
    assert s[start..start + 1] == [s[start]];
    Emit(s, start, start + 1, kind, None, line)
  }

  /** A step is determined by its fields: the step that emits one token and
      reports nothing. */
  lemma EmittedStep(r: Step, next: nat, line: int, kind: Kind, lexeme: string, literal: Option<Literal>)
    requires r.next == next && r.line == line && r.error.None? && r.token.Some?
    requires r.token.value.kind == kind && r.token.value.lexeme == lexeme
    requires r.token.value.literal == literal && r.token.value.line == line
    ensures r == Step(next, line, Some(Token(kind, lexeme, literal, line)), None)
  {
  }

  /** One call of `scanToken` at `start`. */
  function ScanToken(s: string, start: nat, line: int): (r: Step)
    requires start < |s|
    ensures start < r.next <= |s|
    ensures r.line == line + Newlines(s, start, r.next)
    ensures r.token.Some? ==> r.error.None?
    ensures r.token.Some? ==> r.token.value.lexeme == s[start..r.next] && r.token.value.line == r.line
    ensures r.token.Some? ==> r.token.value.kind != Eof
  {
    var c := s[start];
    if c == '(' then Single(s, start, LeftParen, line)
    else if c == ')' then Single(s, start, RightParen, line)
    else if c == '{' then Single(s, start, LeftBrace, line)
    else if c == '}' then Single(s, start, RightBrace, line)
    else if c == ',' then Single(s, start, Comma, line)
    else if c == '.' then Single(s, start, Dot, line)
    else if c == '-' then Single(s, start, Minus, line)
    else if c == '+' then Single(s, start, Plus, line)
    else if c == ';' then Single(s, start, Semicolon, line)
    else if c == '*' then Single(s, start, Star, line)
    else if c == '!' then OneOrTwo(s, start, line, Bang, BangEqual)
    else if c == '=' then OneOrTwo(s, start, line, Equal, EqualEqual)
    else if c == '<' then OneOrTwo(s, start, line, Less, LessEqual)
    else if c == '>' then OneOrTwo(s, start, line, Greater, GreaterEqual)
    else if c == '/' then
      if start + 1 < |s| && s[start + 1] == '/' then CommentStep(s, start, line)
      else Single(s, start, Slash, line)
    else if c == '"' then StringStep(s, start, line)
    else if Decimal.IsDigit(c) then NumberStep(s, start, line)
    else if IsAlpha(c) then IdentifierStep(s, start, line)
    else if c == ' ' || c == '\r' || c == '\t' then
      OneCharNoNewline(s, start);
      Step(start + 1, line, None, None)
    else if c == '\n' then
      assert Newlines(s, start, start) == 0;
      Step(start + 1, line + 1, None, None)
    else
      OneCharNoNewline(s, start);
      Step(start + 1, line, None, Some(LoxError.Error(line, "", "Unexpected character.")))
  }

  /** The result of `ScanTokens`: the tokens, and the lexical diagnostics
      reported along the way (the Go scanner prints them and carries on). */
  datatype Scan = Scan(tokens: seq<Token>, errors: seq<LoxError.Diagnostic>)

  /** The `for !sc.isAtEnd()` loop of `ScanTokens` from index `i`, followed by
      the EOF token. Every step makes progress, so the loop always reaches the
      end of the source, whatever it reported on the way. */
  function ScanFrom(s: string, i: nat, line: int): (r: Scan)
    requires i <= |s|
    ensures |r.tokens| >= 1
    ensures r.tokens[|r.tokens| - 1] == Token(Eof, "", None, line + Newlines(s, i, |s|))
    ensures |r.tokens| - 1 + |r.errors| <= |s| - i
    decreases |s| - i
  {
    if i == |s| then Scan([Token(Eof, "", None, line)], [])
    else
      var step := ScanToken(s, i, line);
      var rest := ScanFrom(s, step.next, step.line);
      NewlinesSplit(s, i, step.next, |s|);
      var tokens := step.token.ToSeq() + rest.tokens;
      assert tokens[|tokens| - 1] == rest.tokens[|rest.tokens| - 1];
      Scan(tokens, step.error.ToSeq() + rest.errors)
  }

  /** Only the last token is EOF, and token lines never decrease, starting
      from `line`. */
  ghost predicate Ordered(tokens: seq<Token>, line: int) {
    && (forall k :: 0 <= k < |tokens| - 1 ==> tokens[k].kind != Eof)
    && (forall k :: 0 <= k < |tokens| ==> line <= tokens[k].line)
    && (forall j, k :: 0 <= j < k < |tokens| ==> tokens[j].line <= tokens[k].line)
  }

  lemma PrependOrdered(t: Option<Token>, rest: seq<Token>, line: int, restLine: int)
    requires |rest| >= 1 && Ordered(rest, restLine) && line <= restLine
    requires t.Some? ==> t.value.kind != Eof && t.value.line == restLine
    ensures Ordered(t.ToSeq() + rest, line)
  {
    if t.Some? {
      assert t.ToSeq() + rest == [t.value] + rest;
      ConsOrdered(t.value, rest, line, restLine);
    } else {
      assert t.ToSeq() + rest == rest;
    }
  }

  lemma ConsOrdered(t: Token, rest: seq<Token>, line: int, restLine: int)
    requires |rest| >= 1 && Ordered(rest, restLine) && line <= restLine
    requires t.kind != Eof && t.line == restLine
    ensures Ordered([t] + rest, line)
  {
    var tokens := [t] + rest;
    forall k | 0 <= k < |tokens| - 1
      ensures tokens[k].kind != Eof
    {
      if k > 0 {
        assert tokens[k] == rest[k - 1];
      }
    }
    forall k | 0 <= k < |tokens|
      ensures line <= tokens[k].line
    {
      if k > 0 {
        assert tokens[k] == rest[k - 1];
      }
    }
    forall j, k | 0 <= j < k < |tokens|
      ensures tokens[j].line <= tokens[k].line
    {
      assert tokens[k] == rest[k - 1];
      if j > 0 {
        assert tokens[j] == rest[j - 1];
      }
    }
  }

  /** Only the last token is EOF, and token lines never decrease: no token is
      on a line before the one the scan started on, nor before an earlier token. */
  lemma {:induction false} ScanFromOrdered(s: string, i: nat, line: int)
    requires i <= |s|
    ensures Ordered(ScanFrom(s, i, line).tokens, line)
    decreases |s| - i
  {
    if i < |s| {
      var step := ScanToken(s, i, line);
      ScanFromOrdered(s, step.next, step.line);
      PrependOrdered(step.token, ScanFrom(s, step.next, step.line).tokens, line, step.line);
    }
  }

  /** `ScanTokens`: scanning starts at index 0 on line 1. */
  function ScanTokens(s: string): (r: Scan)
    ensures |r.tokens| >= 1
    ensures r.tokens[|r.tokens| - 1] == Token(Eof, "", None, 1 + Newlines(s, 0, |s|))
    ensures forall k :: 0 <= k < |r.tokens| - 1 ==> r.tokens[k].kind != Eof
    ensures s == [] ==> r == Scan([Token(Eof, "", None, 1)], [])
  {
    ScanFromOrdered(s, 0, 1);
    ScanFrom(s, 0, 1)
  }

  /** Where each token's lexeme came from: the `[start, current)` range of the
      scan step that emitted it. */
  ghost function Spans(s: string, i: nat, line: int): seq<(nat, nat)>
    requires i <= |s|
    decreases |s| - i
  {
    if i == |s| then []
    else
      var step := ScanToken(s, i, line);
      (if step.token.Some? then [(i, step.next)] else []) + Spans(s, step.next, step.line)
  }

  /** `sp` lists non-empty ranges of `s` at or after `i`, in source order and
      without overlap, and the first `|sp|` tokens are their source texts. */
  ghost predicate InSourceOrder(s: string, i: nat, tokens: seq<Token>, sp: seq<(nat, nat)>) {
    && |sp| < |tokens|
    && (forall k :: 0 <= k < |sp| ==>
          i <= sp[k].0 < sp[k].1 <= |s| && tokens[k].lexeme == s[sp[k].0..sp[k].1])
    && (forall k :: 0 <= k < |sp| - 1 ==> sp[k].1 <= sp[k + 1].0)
  }

  /** Every token before EOF is the source text of its own non-empty range, and
      the ranges follow one another in source order without overlapping. */
  lemma {:induction false} LexemesInSourceOrder(s: string, i: nat, line: int)
    requires i <= |s|
    ensures |Spans(s, i, line)| == |ScanFrom(s, i, line).tokens| - 1
    ensures InSourceOrder(s, i, ScanFrom(s, i, line).tokens, Spans(s, i, line))
    decreases |s| - i
  {
    if i < |s| {
      var step := ScanToken(s, i, line);
      LexemesInSourceOrder(s, step.next, step.line);
      var rest := Spans(s, step.next, step.line);
      var restTokens := ScanFrom(s, step.next, step.line).tokens;
      if step.token.Some? {
        PrependSpan(s, i, step.next, step.token.value, restTokens, rest);
      }
    }
  }

  lemma PrependSpan(s: string, i: nat, next: nat, t: Token, tokens: seq<Token>, sp: seq<(nat, nat)>)
    requires i < next <= |s| && t.lexeme == s[i..next]
    requires InSourceOrder(s, next, tokens, sp)
    ensures InSourceOrder(s, i, [t] + tokens, [(i, next)] + sp)
  {
    var sp' := [(i, next)] + sp;
    var tokens' := [t] + tokens;
    forall k | 0 <= k < |sp'|
      ensures i <= sp'[k].0 < sp'[k].1 <= |s| && tokens'[k].lexeme == s[sp'[k].0..sp'[k].1]
    {
      if k > 0 {
        assert sp'[k] == sp[k - 1] && tokens'[k] == tokens[k - 1];
      }
    }
    forall k | 0 <= k < |sp'| - 1
      ensures sp'[k].1 <= sp'[k + 1].0
    {
      if k > 0 {
        assert sp'[k] == sp[k - 1] && sp'[k + 1] == sp[k];
      }
    }
  }

  /** The characters that make a token on their own. */
  function OneCharKind(c: char): Option<Kind> {
    match c
    case '(' => Some(LeftParen)
    case ')' => Some(RightParen)
    case '{' => Some(LeftBrace)
    case '}' => Some(RightBrace)
    case ',' => Some(Comma)
    case '.' => Some(Dot)
    case '-' => Some(Minus)
    case '+' => Some(Plus)
    case ';' => Some(Semicolon)
    case '*' => Some(Star)
    case '/' => Some(Slash)
    case '!' => Some(Bang)
    case '=' => Some(Equal)
    case '<' => Some(Less)
    case '>' => Some(Greater)
    case _ => None
  }

  /** The two-character operators, by their first character. */
  function TwoCharKind(c: char): Option<Kind> {
    match c
    case '!' => Some(BangEqual)
    case '=' => Some(EqualEqual)
    case '<' => Some(LessEqual)
    case '>' => Some(GreaterEqual)
    case _ => None
  }

  /** Maximal munch for the operators: `!`, `=`, `<` or `>` immediately
      followed by `=` is one two-character token; otherwise, and for every
      other operator character, the token is the single character. */
  lemma OperatorMunch(s: string, i: nat, line: int)
    requires i < |s| && OneCharKind(s[i]).Some?
    ensures var r := ScanToken(s, i, line);
            var two := TwoCharKind(s[i]).Some? && i + 1 < |s| && s[i + 1] == '=';
            && r.error.None? && r.line == line
            && (s[i] == '/' && i + 1 < |s| && s[i + 1] == '/' ==> r.token.None?)
            && (two ==> r.next == i + 2 && r.token == Some(Token(TwoCharKind(s[i]).value, s[i..i + 2], None, line)))
            && (!two && !(s[i] == '/' && i + 1 < |s| && s[i + 1] == '/') ==>
                  r.next == i + 1 && r.token == Some(Token(OneCharKind(s[i]).value, [s[i]], None, line)))
  {
    assert s[i..i + 1] == [s[i]];
  }

  /** Spaces, tabs and carriage returns emit nothing; a newline emits nothing
      and moves the line counter by exactly one. */
  lemma WhitespaceEmitsNothing(s: string, i: nat, line: int)
    requires i < |s| && s[i] in {' ', '\t', '\r', '\n'}
    ensures var r := ScanToken(s, i, line);
            && r.token.None? && r.error.None? && r.next == i + 1
            && r.line == (if s[i] == '\n' then line + 1 else line)
  {
  }

  /** A `//` comment runs up to, not including, the next newline or the end. */
  lemma CommentExtent(s: string, i: nat, line: int)
    requires i + 1 < |s| && s[i] == '/' && s[i + 1] == '/'
    ensures var r := CommentStep(s, i, line);
            && (forall k :: i <= k < r.next ==> s[k] != '\n')
            && (r.next == |s| || s[r.next] == '\n')
  {
    var end := Span(s, i + 2, NotNewline);
    assert forall k :: i + 2 <= k < end ==> NotNewline(s[k]);
  }

  /** A `//` comment emits nothing and stops just before the next newline (or
      at the end), so the newline itself is still counted afterwards. */
  lemma CommentEmitsNothing(s: string, i: nat, line: int)
    requires i + 1 < |s| && s[i] == '/' && s[i + 1] == '/'
    ensures var r := ScanToken(s, i, line);
            && r.token.None? && r.error.None? && r.line == line
            && (forall k :: i <= k < r.next ==> s[k] != '\n')
            && (r.next == |s| || s[r.next] == '\n')
  {
    assert ScanToken(s, i, line) == CommentStep(s, i, line);
    CommentExtent(s, i, line);
  }

  /** A character that starts no token is reported at the current line and
      skipped; no token is emitted. */
  lemma UnexpectedCharacter(s: string, i: nat, line: int)
    requires i < |s|
    requires OneCharKind(s[i]).None? && s[i] != '"' && !IsAlphaNumeric(s[i])
    requires s[i] !in {' ', '\t', '\r', '\n'}
    ensures ScanToken(s, i, line) == Step(i + 1, line, None, Some(LoxError.Error(line, "", "Unexpected character.")))
  {
  }

  /** A terminated string is one STRING token whose lexeme includes both quotes
      and whose literal is the text strictly between them; the newlines inside
      move the line counter, and the token carries the line of its closing quote. */
  lemma StringToken(s: string, i: nat, j: nat, line: int)
    requires i < j < |s| && s[i] == '"' && s[j] == '"'
    requires forall k :: i < k < j ==> s[k] != '"'
    ensures var lines := line + Newlines(s, i + 1, j);
            ScanToken(s, i, line)
            == Step(j + 1, lines, Some(Token(StringLiteral, s[i..j + 1], Some(StringValue(s[i + 1..j])), lines)), None)
  {
    DispatchQuote(s, i, line);
    ClosedString(s, i, j, line);
  }

  lemma ClosedString(s: string, i: nat, j: nat, line: int)
    requires i < j < |s| && s[i] == '"' && s[j] == '"'
    requires forall k :: i < k < j ==> s[k] != '"'
    ensures var lines := line + Newlines(s, i + 1, j);
            StringStep(s, i, line)
            == Step(j + 1, lines, Some(Token(StringLiteral, s[i..j + 1], Some(StringValue(s[i + 1..j])), lines)), None)
  {
    ClosingQuote(s, i, j);
    var r := StringStep(s, i, line);
    var lines := line + Newlines(s, i + 1, j);
    assert r.next == j + 1 && r.line == lines && r.error.None? && r.token.Some?;
    assert r.token.value.kind == StringLiteral && r.token.value.lexeme == s[i..j + 1];
    assert r.token.value.literal == Some(StringValue(s[i + 1..j])) && r.token.value.line == lines;
    EmittedStep(r, j + 1, lines, StringLiteral, s[i..j + 1], Some(StringValue(s[i + 1..j])));
  }

  /** The text of a string runs to the first quote after the opening one. */
  lemma ClosingQuote(s: string, i: nat, j: nat)
    requires i < j < |s| && s[j] == '"'
    requires forall k :: i < k < j ==> s[k] != '"'
    ensures Span(s, i + 1, NotQuote) == j
  {
    SpanStopsAt(s, i + 1, j, NotQuote);
  }

  /** A string still open at the end of the source is reported, emits no
      token, and the scan goes on to the end. */
  lemma UnterminatedString(s: string, i: nat, line: int)
    requires i < |s| && s[i] == '"'
    requires forall k :: i < k < |s| ==> s[k] != '"'
    ensures var lines := line + Newlines(s, i + 1, |s|);
            ScanToken(s, i, line)
            == Step(|s|, lines, None, Some(LoxError.Error(lines - 1, "", "Unterminated string.")))
  {
    DispatchQuote(s, i, line);
    OpenString(s, i, line);
  }

  lemma OpenString(s: string, i: nat, line: int)
    requires i < |s| && s[i] == '"'
    requires forall k :: i < k < |s| ==> s[k] != '"'
    ensures var lines := line + Newlines(s, i + 1, |s|);
            StringStep(s, i, line)
            == Step(|s|, lines, None, Some(LoxError.Error(lines - 1, "", "Unterminated string.")))
  {
    NoClosingQuote(s, i);
  }

  lemma NoClosingQuote(s: string, i: nat)
    requires i < |s|
    requires forall k :: i < k < |s| ==> s[k] != '"'
    ensures Span(s, i + 1, NotQuote) == |s|
  {
    SpanStopsAt(s, i + 1, |s|, NotQuote);
  }

  /** A number is a maximal digit run; a `.` belongs to it only when a digit
      follows, and then so does the maximal digit run after the `.`; the
      number never ends in `.`. */
  lemma NumberMunch(s: string, i: nat, line: int)
    requires i < |s| && Decimal.IsDigit(s[i])
    ensures var r := ScanToken(s, i, line);
            && r.token.Some? && r.token.value.kind == NumberLiteral && r.error.None?
            && (forall k :: i <= k < r.next ==> Decimal.IsDigit(s[k]) || s[k] == '.')
            && s[r.next - 1] != '.'
            && (r.next < |s| ==> !Decimal.IsDigit(s[r.next]))
            && (forall j, k :: i <= j < k < r.next && s[j] == '.' ==> s[k] != '.')
            && ((forall k :: i <= k < r.next ==> s[k] != '.') && r.next + 1 < |s| && s[r.next] == '.'
                ==> !Decimal.IsDigit(s[r.next + 1]))
  {
    DispatchDigit(s, i, line);
    NumberExtent(s, i, line);
  }

  /** What `number` consumes: digits and at most one `.`, ending in a digit,
      followed by no digit, and a `.` is taken only when a digit follows it. */
  lemma NumberExtent(s: string, i: nat, line: int)
    requires i < |s| && Decimal.IsDigit(s[i])
    ensures var r := NumberStep(s, i, line);
            && (forall k :: i <= k < r.next ==> Decimal.IsDigit(s[k]) || s[k] == '.')
            && s[r.next - 1] != '.'
            && (r.next < |s| ==> !Decimal.IsDigit(s[r.next]))
            && (forall j, k :: i <= j < k < r.next && s[j] == '.' ==> s[k] != '.')
            && ((forall k :: i <= k < r.next ==> s[k] != '.') && r.next + 1 < |s| && s[r.next] == '.'
                ==> !Decimal.IsDigit(s[r.next + 1]))
  {
    var whole := Span(s, i + 1, Decimal.IsDigit);
    assert forall k :: i <= k < whole ==> Decimal.IsDigit(s[k]);
    if Peek(s, whole) == '.' && Decimal.IsDigit(PeekNext(s, whole)) {
      var end := Span(s, whole + 1, Decimal.IsDigit);
      assert forall k :: whole < k < end ==> Decimal.IsDigit(s[k]);
    }
  }

  /** An input of one operator character scans as that token followed by EOF,
      both on line 1. */
  lemma ScanOneCharOperator(c: char)
    requires OneCharKind(c).Some?
    ensures ScanTokens([c]) == Scan([Token(OneCharKind(c).value, [c], None, 1), Token(Eof, "", None, 1)], [])
  {
    OperatorMunch([c], 0, 1);
  }

  /** `!=`, `==`, `<=` and `>=` alone scan as one two-character token. */
  lemma ScanTwoCharOperator(c: char)
    requires TwoCharKind(c).Some?
    ensures ScanTokens([c, '=']) == Scan([Token(TwoCharKind(c).value, [c, '='], None, 1), Token(Eof, "", None, 1)], [])
  {
    OperatorMunch([c, '='], 0, 1);
    assert [c, '='][0..2] == [c, '='];
  }

  /** `scanToken` on a digit is `number`. */
  lemma DispatchDigit(s: string, i: nat, line: int)
    requires i < |s| && Decimal.IsDigit(s[i])
    ensures ScanToken(s, i, line) == NumberStep(s, i, line)
  {
  }

  /** `scanToken` on a letter or underscore is the identifier rule. */
  lemma DispatchAlpha(s: string, i: nat, line: int)
    requires i < |s| && IsAlpha(s[i])
    ensures ScanToken(s, i, line) == IdentifierStep(s, i, line)
  {
    assert !Decimal.IsDigit(s[i]);
  }

  /** `scanToken` on a double quote is `scanString`. */
  lemma DispatchQuote(s: string, i: nat, line: int)
    requires i < |s| && s[i] == '"'
    ensures ScanToken(s, i, line) == StringStep(s, i, line)
  {
  }

  /** The scan loop, unfolded once. */
  lemma ScanFromCons(s: string, i: nat, line: int)
    requires i < |s|
    ensures ScanFrom(s, i, line)
            == var step := ScanToken(s, i, line);
               var rest := ScanFrom(s, step.next, step.line);
               Scan(step.token.ToSeq() + rest.tokens, step.error.ToSeq() + rest.errors)
  {
  }

  /** One known step followed by a known rest of the scan. */
  lemma ScanStep(s: string, i: nat, line: int, step: Step, rest: Scan)
    requires i < |s| && ScanToken(s, i, line) == step
    requires step.next <= |s| && ScanFrom(s, step.next, step.line) == rest
    ensures ScanFrom(s, i, line) == Scan(step.token.ToSeq() + rest.tokens, step.error.ToSeq() + rest.errors)
  {
    ScanFromCons(s, i, line);
  }

  /** At the end of the source only EOF is left. */
  lemma ScanFromEnd(s: string, line: int)
    ensures ScanFrom(s, |s|, line) == Scan([Token(Eof, "", None, line)], [])
  {
  }

  /** A source that is one token from start to end. */
  lemma OneToken(s: string, t: Token, line: int)
    requires |s| > 0 && ScanToken(s, 0, 1) == Step(|s|, line, Some(t), None)
    ensures ScanTokens(s) == Scan([t, Token(Eof, "", None, line)], [])
  {
    ScanFromEnd(s, line);
    ScanStep(s, 0, 1, Step(|s|, line, Some(t), None), Scan([Token(Eof, "", None, line)], []));
  }

  /** A source that is two adjacent tokens on line 1. */
  lemma TwoTokens(s: string, mid: nat, t0: Token, t1: Token)
    requires 0 < mid < |s|
    requires ScanToken(s, 0, 1) == Step(mid, 1, Some(t0), None)
    requires ScanToken(s, mid, 1) == Step(|s|, 1, Some(t1), None)
    ensures ScanTokens(s) == Scan([t0, t1, Token(Eof, "", None, 1)], [])
  {
    ScanFromEnd(s, 1);
    ScanStep(s, mid, 1, Step(|s|, 1, Some(t1), None), Scan([Token(Eof, "", None, 1)], []));
    ScanStep(s, 0, 1, Step(mid, 1, Some(t0), None), Scan([t1, Token(Eof, "", None, 1)], []));
  }

  /** `number` on a digit run that is not followed by a `.` and a digit. */
  lemma NumberStepWhole(s: string, i: nat, end: nat, line: int)
    requires i < end <= |s| && Decimal.AllDigits(s[i..end])
    requires end < |s| ==> !Decimal.IsDigit(s[end]) && !(s[end] == '.' && Decimal.IsDigit(PeekNext(s, end)))
    ensures NumberStep(s, i, line)
            == Step(end, line, Some(Token(NumberLiteral, s[i..end], Some(NumberValue(Decimal.DigitsValue(s[i..end]) as real)), line)), None)
  {
    forall k | i + 1 <= k < end
      ensures Decimal.IsDigit(s[k])
    {
      assert s[i..end][k - i] == s[k];
    }
    SpanStopsAt(s, i + 1, end, Decimal.IsDigit);
    var r := NumberStep(s, i, line);
    var literal := Some(NumberValue(Decimal.DigitsValue(s[i..end]) as real));
    assert r.next == end && r.line == line && r.error.None? && r.token.Some?;
    assert r.token.value.kind == NumberLiteral && r.token.value.lexeme == s[i..end];
    assert r.token.value.literal == literal && r.token.value.line == line;
    EmittedStep(r, end, line, NumberLiteral, s[i..end], literal);
  }

  /** `number` on digits, a `.`, and digits up to the end of the source. */
  lemma NumberStepFraction(s: string, i: nat, dot: nat, line: int)
    requires i < dot && dot + 1 < |s| && s[dot] == '.'
    requires Decimal.AllDigits(s[i..dot]) && Decimal.AllDigits(s[dot + 1..|s|])
    ensures NumberStep(s, i, line)
            == Step(|s|, line, Some(Token(NumberLiteral, s[i..|s|], Some(NumberValue(Decimal.DecimalValue(s[i..dot], s[dot + 1..|s|]))), line)), None)
  {
    forall k | i + 1 <= k < dot
      ensures Decimal.IsDigit(s[k])
    {
      assert s[i..dot][k - i] == s[k];
    }
    SpanStopsAt(s, i + 1, dot, Decimal.IsDigit);
    forall k | dot + 1 <= k < |s|
      ensures Decimal.IsDigit(s[k])
    {
      assert s[dot + 1..|s|][k - dot - 1] == s[k];
    }
    SpanStopsAt(s, dot + 1, |s|, Decimal.IsDigit);
    var r := NumberStep(s, i, line);
    var literal := Some(NumberValue(Decimal.DecimalValue(s[i..dot], s[dot + 1..|s|])));
    assert r.next == |s| && r.line == line && r.error.None? && r.token.Some?;
    assert r.token.value.kind == NumberLiteral && r.token.value.lexeme == s[i..|s|];
    assert r.token.value.literal == literal && r.token.value.line == line;
    EmittedStep(r, |s|, line, NumberLiteral, s[i..|s|], literal);
  }

  predicate IsWord(w: string) {
    |w| >= 1 && IsAlpha(w[0]) && forall k :: 0 <= k < |w| ==> IsAlphaNumeric(w[k])
  }

  /** The identifier rule on a source that is one word. */
  lemma WholeWord(w: string)
    requires IsWord(w)
    ensures IdentifierStep(w, 0, 1) == Step(|w|, 1, Some(Token(KeywordKind(w).GetOr(Identifier), w, None, 1)), None)
  {
    SpanStopsAt(w, 1, |w|, IsAlphaNumeric);
    assert w[0..|w|] == w;
    var r := IdentifierStep(w, 0, 1);
    assert r.next == |w| && r.line == 1 && r.error.None? && r.token.Some?;
    assert r.token.value.kind == KeywordKind(w).GetOr(Identifier) && r.token.value.lexeme == w;
    assert r.token.value.literal == None && r.token.value.line == 1;
    EmittedStep(r, |w|, 1, KeywordKind(w).GetOr(Identifier), w, None);
  }

  lemma WordStep(w: string)
    requires IsWord(w)
    ensures ScanToken(w, 0, 1) == Step(|w|, 1, Some(Token(KeywordKind(w).GetOr(Identifier), w, None, 1)), None)
  {
    DispatchAlpha(w, 0, 1);
    WholeWord(w);
  }

  /** A word alone scans as one token: its keyword kind when it is reserved,
      IDENTIFIER otherwise. */
  lemma ScanWord(w: string)
    requires IsWord(w)
    ensures ScanTokens(w) == Scan([Token(KeywordKind(w).GetOr(Identifier), w, None, 1), Token(Eof, "", None, 1)], [])
  {
    WordStep(w);
    OneToken(w, Token(KeywordKind(w).GetOr(Identifier), w, None, 1), 1);
  }

  /** Each reserved word alone scans as its keyword token. */
  lemma ScanKeyword(k: Kind)
    requires IsKeyword(k)
    ensures ScanTokens(KeywordText(k)) == Scan([Token(k, KeywordText(k), None, 1), Token(Eof, "", None, 1)], [])
  {
    KeywordRoundTrip(k);
    ScanWord(KeywordText(k));
  }

  /** `scanToken` as the source has it: it has no identifier branch, so a
      letter or underscore reaches the default case and is reported as an
      unexpected character; on every other character it is `ScanToken`. */
  function ScanTokenAsWritten(s: string, start: nat, line: int): (r: Step)
    requires start < |s|
    ensures !IsAlpha(s[start]) ==> r == ScanToken(s, start, line)
    ensures IsAlpha(s[start]) ==> r.token.None? && r.error.Some? && r.next == start + 1
  {
    if IsAlpha(s[start]) then Step(start + 1, line, None, Some(LoxError.Error(line, "", "Unexpected character.")))
    else ScanToken(s, start, line)
  }

  /** As written, the reserved word `var` starts with an unexpected character
      and emits no token, where the rule the tests expect scans it as one VAR
      keyword token. */
  lemma KeywordRejectedAsWritten()
    ensures ScanTokenAsWritten("var", 0, 1) == Step(1, 1, None, Some(LoxError.Error(1, "", "Unexpected character.")))
    ensures ScanToken("var", 0, 1) == Step(3, 1, Some(Token(VarKw, "var", None, 1)), None)
  {
    WordStep("var");
  }

  lemma DigitsStep(a: string)
    requires |a| >= 1 && Decimal.AllDigits(a)
    ensures ScanToken(a, 0, 1)
            == Step(|a|, 1, Some(Token(NumberLiteral, a, Some(NumberValue(Decimal.DigitsValue(a) as real)), 1)), None)
  {
    DispatchDigit(a, 0, 1);
    assert a[0..|a|] == a;
    NumberStepWhole(a, 0, |a|, 1);
  }

  /** A digit run alone scans as one NUMBER token with the run's value. */
  lemma ScanDigits(a: string)
    requires |a| >= 1 && Decimal.AllDigits(a)
    ensures ScanTokens(a)
            == Scan([Token(NumberLiteral, a, Some(NumberValue(Decimal.DigitsValue(a) as real)), 1),
                     Token(Eof, "", None, 1)], [])
  {
    DigitsStep(a);
    OneToken(a, Token(NumberLiteral, a, Some(NumberValue(Decimal.DigitsValue(a) as real)), 1), 1);
  }

  lemma DigitsThenDotStep(a: string)
    requires |a| >= 1 && Decimal.AllDigits(a)
    ensures ScanToken(a + ".", 0, 1)
            == Step(|a|, 1, Some(Token(NumberLiteral, a, Some(NumberValue(Decimal.DigitsValue(a) as real)), 1)), None)
  {
    var s := a + ".";
    DispatchDigit(s, 0, 1);
    assert s[0..|a|] == a;
    NumberStepWhole(s, 0, |a|, 1);
  }

  lemma LastDotStep(a: string)
    requires |a| >= 1
    ensures ScanToken(a + ".", |a|, 1) == Step(|a| + 1, 1, Some(Token(Dot, ".", None, 1)), None)
  {
    OperatorMunch(a + ".", |a|, 1);
  }

  /** `123.` scans as NUMBER `123` then DOT: a trailing `.` is not part of
      the number. */
  lemma ScanTrailingDot(a: string)
    requires |a| >= 1 && Decimal.AllDigits(a)
    ensures ScanTokens(a + ".")
            == Scan([Token(NumberLiteral, a, Some(NumberValue(Decimal.DigitsValue(a) as real)), 1),
                     Token(Dot, ".", None, 1), Token(Eof, "", None, 1)], [])
  {
    DigitsThenDotStep(a);
    LastDotStep(a);
    TwoTokens(a + ".", |a|, Token(NumberLiteral, a, Some(NumberValue(Decimal.DigitsValue(a) as real)), 1),
              Token(Dot, ".", None, 1));
  }

  lemma FirstDotStep(a: string)
    ensures ScanToken("." + a, 0, 1) == Step(1, 1, Some(Token(Dot, ".", None, 1)), None)
  {
    OperatorMunch("." + a, 0, 1);
  }

  lemma DigitsAfterDotStep(a: string)
    requires |a| >= 1 && Decimal.AllDigits(a)
    ensures ScanToken("." + a, 1, 1)
            == Step(|a| + 1, 1, Some(Token(NumberLiteral, a, Some(NumberValue(Decimal.DigitsValue(a) as real)), 1)), None)
  {
    var s := "." + a;
    DispatchDigit(s, 1, 1);
    assert s[1..|s|] == a;
    NumberStepWhole(s, 1, |s|, 1);
  }

  /** `.456` scans as DOT then NUMBER `456`: a number never starts with `.`. */
  lemma ScanLeadingDot(a: string)
    requires |a| >= 1 && Decimal.AllDigits(a)
    ensures ScanTokens("." + a)
            == Scan([Token(Dot, ".", None, 1),
                     Token(NumberLiteral, a, Some(NumberValue(Decimal.DigitsValue(a) as real)), 1),
                     Token(Eof, "", None, 1)], [])
  {
    FirstDotStep(a);
    DigitsAfterDotStep(a);
    TwoTokens("." + a, 1, Token(Dot, ".", None, 1),
              Token(NumberLiteral, a, Some(NumberValue(Decimal.DigitsValue(a) as real)), 1));
  }

  lemma FractionParts(a: string, b: string)
    ensures var s := a + "." + b;
            s[0..|a|] == a && s[|a|] == '.' && s[|a| + 1..|s|] == b && s[0..|s|] == s && |s| == |a| + 1 + |b|
  {
  }

  lemma FractionNumber(a: string, b: string)
    requires |a| >= 1 && Decimal.AllDigits(a) && |b| >= 1 && Decimal.AllDigits(b)
    ensures NumberStep(a + "." + b, 0, 1)
            == Step(|a| + 1 + |b|, 1, Some(Token(NumberLiteral, a + "." + b, Some(NumberValue(Decimal.DecimalValue(a, b))), 1)), None)
  {
    var s := a + "." + b;
    FractionParts(a, b);
    NumberStepFraction(s, 0, |a|, 1);
    var r := NumberStep(s, 0, 1);
    var literal := Some(NumberValue(Decimal.DecimalValue(a, b)));
    assert r.next == |s| && r.line == 1 && r.error.None? && r.token.Some?;
    assert r.token.value.kind == NumberLiteral && r.token.value.lexeme == s;
    assert r.token.value.literal == literal && r.token.value.line == 1;
    EmittedStep(r, |s|, 1, NumberLiteral, s, literal);
  }

  lemma FractionStep(a: string, b: string)
    requires |a| >= 1 && Decimal.AllDigits(a) && |b| >= 1 && Decimal.AllDigits(b)
    ensures ScanToken(a + "." + b, 0, 1)
            == Step(|a| + 1 + |b|, 1, Some(Token(NumberLiteral, a + "." + b, Some(NumberValue(Decimal.DecimalValue(a, b))), 1)), None)
  {
    assert (a + "." + b)[0] == a[0];
    DispatchDigit(a + "." + b, 0, 1);
    FractionNumber(a, b);
  }

  /** `123.456` scans as one NUMBER token whose value has the fraction. */
  lemma ScanFraction(a: string, b: string)
    requires |a| >= 1 && Decimal.AllDigits(a) && |b| >= 1 && Decimal.AllDigits(b)
    ensures ScanTokens(a + "." + b)
            == Scan([Token(NumberLiteral, a + "." + b, Some(NumberValue(Decimal.DecimalValue(a, b))), 1),
                     Token(Eof, "", None, 1)], [])
  {
    FractionStep(a, b);
    OneToken(a + "." + b, Token(NumberLiteral, a + "." + b, Some(NumberValue(Decimal.DecimalValue(a, b))), 1), 1);
  }
}
