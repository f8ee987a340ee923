/** Diagnostics (loxerror/loxerror.go). The Go package prints each diagnostic
    and sets process-wide flags; here a diagnostic is a value, its printed form
    is `Text`, the flags are an explicit `Flags` record and the panic that
    follows a parse or runtime error is the `Aborts` outcome. */
module LoxError {
  import opened Tokens
  import Decimal

  /** Which entry point produced the diagnostic: plain `Error` (the scanner),
      `ParseError` or `RuntimeError`. */
  datatype Origin = Plain | Parse | Runtime

  datatype Diagnostic = Diagnostic(origin: Origin, line: int, location: string, message: string)

  datatype Flags = Flags(hadError: bool, hadRuntimeError: bool)

  const NoErrors := Flags(false, false)

  /** The printed line, `[<line>] Error <location>: <message>`. */
  function Text(d: Diagnostic): (s: string)
    ensures |s| >= |d.message| + 11
    ensures s[0] == '['
    ensures s[|s| - |d.message|..] == d.message
  {
    "[" + Decimal.IntText(d.line) + "] Error " + d.location + ": " + d.message
  }

  /** A plain diagnostic at a line, with the location text given by the caller. */
  function Error(line: int, location: string, message: string): (d: Diagnostic)
    ensures d.origin == Plain && !Aborts(d)
    ensures d.line == line && d.location == location && d.message == message
  {
    Diagnostic(Plain, line, location, message)
  }

  /** The location of a parse error: `at end` on the EOF token, otherwise the
      offending lexeme in single quotes. */
  function ParseLocation(t: Token): (where: string)
    ensures t.kind == Eof <==> where == "at end"
    ensures t.kind != Eof ==> |where| == |t.lexeme| + 5 && where[..4] == "at '"
                              && where[4..|where| - 1] == t.lexeme && where[|where| - 1] == '\''
  {
    if t.kind == Eof then "at end"
    else
      var w := "at '" + t.lexeme + "'";
      assert w[3] != "at end"[3];
      w
  }

  /** A parse error reported at token `t`; it aborts the current declaration. */
  function ParseError(t: Token, message: string): (d: Diagnostic)
    ensures d.origin == Parse && Aborts(d)
    ensures d.line == t.line && d.message == message
    ensures t.kind == Eof <==> d.location == "at end"
  {
    Diagnostic(Parse, t.line, ParseLocation(t), message)
  }

  /** A runtime error reported at token `t`: no location text; it aborts the
      remaining statements of the run. */
  function RuntimeError(t: Token, message: string): (d: Diagnostic)
    ensures d.origin == Runtime && Aborts(d)
    ensures d.line == t.line && d.location == "" && d.message == message
  {
    Diagnostic(Runtime, t.line, "", message)
  }

  /** Parse and runtime errors unwind (a Go panic); plain errors do not. */
  predicate Aborts(d: Diagnostic) {
    d.origin != Plain
  }

  /** The flags after reporting `d`: every diagnostic sets the error flag, only a
      runtime error sets the runtime-error flag, and no flag is ever cleared. */
  function Record(f: Flags, d: Diagnostic): (g: Flags)
    ensures g.hadError
    ensures g.hadRuntimeError <==> f.hadRuntimeError || d.origin == Runtime
  {
    Flags(true, f.hadRuntimeError || d.origin == Runtime)
  }

  /** The flags after reporting a whole sequence of diagnostics in order. */
  function RecordAll(f: Flags, ds: seq<Diagnostic>): (g: Flags)
    decreases |ds|
  {
    if ds == [] then f else RecordAll(Record(f, ds[0]), ds[1..])
  }

  /** Starting clean, the error flag ends set exactly when something was
      reported, and the runtime flag exactly when a runtime error was. */
  lemma {:induction false} RecordAllFlags(f: Flags, ds: seq<Diagnostic>)
    ensures RecordAll(f, ds).hadError <==> f.hadError || |ds| > 0
    ensures RecordAll(f, ds).hadRuntimeError
            <==> f.hadRuntimeError || exists k :: 0 <= k < |ds| && ds[k].origin == Runtime
    decreases |ds|
  {
    if ds != [] {
      RecordAllFlags(Record(f, ds[0]), ds[1..]);
      if RecordAll(f, ds).hadRuntimeError && !f.hadRuntimeError && ds[0].origin != Runtime {
        var k :| 0 <= k < |ds[1..]| && ds[1..][k].origin == Runtime;
        assert ds[k + 1].origin == Runtime;
      }
      if exists k :: 0 <= k < |ds| && ds[k].origin == Runtime {
        var k :| 0 <= k < |ds| && ds[k].origin == Runtime;
        if k > 0 {
          assert ds[1..][k - 1].origin == Runtime;
        }
      }
    }
  }

  /** The line number can be read back from the printed text: the digits
      between the opening `[` and the first `]`. */
  lemma TextLineReadable(d: Diagnostic)
    ensures var s := Text(d);
            var n := |Decimal.IntText(d.line)|;
            s[n + 1] == ']' && Decimal.ReadInt(s[1..n + 1]) == d.line
  {
    var s := Text(d);
    var n := |Decimal.IntText(d.line)|;
    assert s[1..n + 1] == Decimal.IntText(d.line);
    Decimal.IntTextRoundTrip(d.line);
  }

  /** The printed line field by field: `[`, the line's digits, `] Error `,
      the location, `: ` and the message, with nothing else in between. */
  lemma TextLayout(d: Diagnostic)
    ensures var s := Text(d);
            var n := |Decimal.IntText(d.line)|;
            var w := n + 9 + |d.location|;
            && |s| == w + 2 + |d.message|
            && s[..1] == "["
            && s[1..n + 1] == Decimal.IntText(d.line)
            && s[n + 1..n + 9] == "] Error "
            && s[n + 9..w] == d.location
            && s[w..w + 2] == ": "
            && s[w + 2..] == d.message
  {
  }
}
