/** sh.c on characters: the scanner, the parser's code, in-place NUL termination, and the round trip
    from a command to text and back. */
module ShellText {
  import opened ShellGrammar
  import opened Wrappers

  const NUL: char := 0 as char

  // ---------- characters ----------

  predicate White(c: char) {
    c == ' ' || c == '\t' || c == '\r' || c == '\n' || c == 11 as char
  }

  predicate Symbol(c: char) {
    c == '<' || c == '|' || c == '>' || c == '&' || c == ';' || c == '(' || c == ')'
  }

  predicate Delimiter(c: char) {
    White(c) || Symbol(c)
  }

  /** The part [q, eq) of the text that a word occupies; the parser keeps both pointers. */
  datatype Span = Span(q: nat, eq: nat)

  function Text(s: string, w: Span): string {
    if w.q <= w.eq <= |s| then s[w.q..w.eq] else ""
  }

  function TextOf(s: string): Span -> string {
    w => Text(s, w)
  }

  // The next character that is not white space.
  function Skip(s: string, i: nat): (j: nat)
    requires i <= |s|
    ensures i <= j <= |s| && (j < |s| ==> !White(s[j])) && forall k :: i <= k < j ==> White(s[k])
    decreases |s| - i
  {
    if i < |s| && White(s[i]) then Skip(s, i + 1) else i
  }

  function WordEnd(s: string, i: nat): (j: nat)
    requires i <= |s|
    ensures i <= j <= |s| && (j < |s| ==> Delimiter(s[j])) && forall k :: i <= k < j ==> !Delimiter(s[k])
    decreases |s| - i
  {
    if i < |s| && !Delimiter(s[i]) then WordEnd(s, i + 1) else i
  }

  function SymbolToken(c: char): Token<Span>
    requires Symbol(c)
  {
    if c == '|' then Bar else if c == '(' then Open else if c == ')' then Close else if c == ';' then Semi
    else if c == '&' then Amp else if c == '<' then Lt else Gt
  }

  // The token at position j, and where it ends.
  function TokenAt(s: string, j: nat): (r: (Token<Span>, nat))
    requires j < |s| && !White(s[j])
    ensures j < r.1 <= |s|
  {
    if s[j] == '>' && j + 1 < |s| && s[j + 1] == '>' then (GtGt, j + 2)
    else if Symbol(s[j]) then (SymbolToken(s[j]), j + 1)
    else (Word(Span(j, WordEnd(s, j))), WordEnd(s, j))
  }

  /** The tokens of s from position i on. */
  function Lex(s: string, i: nat): (ts: seq<Token<Span>>)
    requires i <= |s|
    decreases |s| - i
  {
    var j := Skip(s, i);
    if j == |s| then [] else [TokenAt(s, j).0] + Lex(s, TokenAt(s, j).1)
  }

  lemma {:induction false} LexSkip(s: string, i: nat)
    requires i <= |s|
    ensures Lex(s, Skip(s, i)) == Lex(s, i) && Skip(s, Skip(s, i)) == Skip(s, i)
  {
  }

  lemma LexFirst(s: string, j: nat)
    requires j < |s| && !White(s[j])
    ensures Skip(s, j) == j && Lex(s, j) == [TokenAt(s, j).0] + Lex(s, TokenAt(s, j).1)
  {
    hide TokenAt;
  }

  // ---------- every word is delimited ----------

  /** A word of the text: no delimiter in it, and a delimiter or the end of the text behind it. */
  predicate SpanOk(s: string, w: Span) {
    && w.q < w.eq <= |s| && (w.eq < |s| ==> Delimiter(s[w.eq]))
    && forall k :: w.q <= k < w.eq ==> !Delimiter(s[k])
  }

  predicate TokensOk<W>(ok: W -> bool, ts: seq<Token<W>>) {
    forall i :: 0 <= i < |ts| && ts[i].Word? ==> ok(ts[i].w)
  }

  predicate WordsOk<W>(ok: W -> bool, c: Cmd<W>) {
    match c
    case Exec(argv) => forall i :: 0 <= i < |argv| ==> ok(argv[i])
    case Redir(x, f, _) => WordsOk(ok, x) && ok(f)
    case Pipe(l, r) => WordsOk(ok, l) && WordsOk(ok, r)
    case List(l, r) => WordsOk(ok, l) && WordsOk(ok, r)
    case Back(x) => WordsOk(ok, x)
  }

  lemma {:induction false} LexOk(s: string, i: nat)
    requires i <= |s|
    ensures TokensOk(w => SpanOk(s, w), Lex(s, i))
    decreases |s| - i
  {
    var j := Skip(s, i);
    if j < |s| { LexOk(s, TokenAt(s, j).1); }
  }

  lemma {:induction false} SameMapOk<W>(ok: W -> bool, c: Cmd<W>)
    requires MapCmd(ok, c) == MapCmd((w: W) => true, c)
    ensures WordsOk(ok, c)
  {
    match c
    case Exec(argv) =>
      forall i | 0 <= i < |argv| ensures ok(argv[i]) {
        assert MapWords(ok, argv)[i] == MapWords((w: W) => true, argv)[i];
      }
    case Redir(x, f, _) => SameMapOk(ok, x);
    case Pipe(l, r) => SameMapOk(ok, l); SameMapOk(ok, r);
    case List(l, r) => SameMapOk(ok, l); SameMapOk(ok, r);
    case Back(x) => SameMapOk(ok, x);
  }

  /** The words of a parsed command are words of the input. */
  lemma ParsedWordsOk<W>(ok: W -> bool, ts: seq<Token<W>>)
    requires TokensOk(ok, ts) && ParseLine(ts).Ok?
    ensures WordsOk(ok, ParseLine(ts).cmd)
  {
    var yes := (w: W) => true;
    assert MapTokens(ok, ts) == MapTokens(yes, ts);
    LineMap(ok, ts);
    LineMap(yes, ts);
    SameMapOk(ok, ParseLine(ts).cmd);
  }

  // ---------- NUL termination ----------

  function NulledWords(b: string, argv: seq<Span>): (r: string)
    ensures |r| == |b|
  {
    if argv == [] then b else
      var r := NulledWords(b, argv[..|argv| - 1]);
      var e := argv[|argv| - 1].eq;
      if e < |r| then r[e := NUL] else r
  }

  /** The buffer after nulterminate. */
  function Nulled(b: string, c: Cmd<Span>): (r: string)
    ensures |r| == |b|
    decreases c
  {
    match c
    case Exec(argv) => NulledWords(b, argv)
    case Redir(x, f, _) => var r := Nulled(b, x); if f.eq < |r| then r[f.eq := NUL] else r
    case Pipe(l, r) => Nulled(Nulled(b, l), r)
    case List(l, r) => Nulled(Nulled(b, l), r)
    case Back(x) => Nulled(b, x)
  }

  predicate EndOf(c: Cmd<Span>, i: nat) {
    match c
    case Exec(argv) => exists k :: 0 <= k < |argv| && argv[k].eq == i
    case Redir(x, f, _) => EndOf(x, i) || f.eq == i
    case Pipe(l, r) => EndOf(l, i) || EndOf(r, i)
    case List(l, r) => EndOf(l, i) || EndOf(r, i)
    case Back(x) => EndOf(x, i)
  }

  lemma {:induction false} NulledWordsAt(b: string, argv: seq<Span>, i: nat)
    requires i < |b|
    ensures NulledWords(b, argv)[i] == if EndOf(Exec(argv), i) then NUL else b[i]
  {
    if argv != [] {
      var n := |argv| - 1;
      NulledWordsAt(b, argv[..n], i);
      assert EndOf(Exec(argv), i) <==> EndOf(Exec(argv[..n]), i) || argv[n].eq == i by {
        if EndOf(Exec(argv[..n]), i) {
          var k :| 0 <= k < |argv[..n]| && argv[..n][k].eq == i;
          assert argv[k].eq == i;
        }
        if EndOf(Exec(argv), i) && argv[n].eq != i {
          var k :| 0 <= k < |argv| && argv[k].eq == i;
          assert argv[..n][k].eq == i;
        }
      }
    }
  }

  /** Exactly the end pointers stored in the command are overwritten. */
  lemma {:induction false} NulledAt(b: string, c: Cmd<Span>, i: nat)
    requires i < |b|
    ensures Nulled(b, c)[i] == if EndOf(c, i) then NUL else b[i]
    decreases c
  {
    match c
    case Exec(argv) => NulledWordsAt(b, argv, i);
    case Redir(x, f, _) => NulledAt(b, x, i);
    case Pipe(l, r) => NulledAt(b, l, i); NulledAt(Nulled(b, l), r, i);
    case List(l, r) => NulledAt(b, l, i); NulledAt(Nulled(b, l), r, i);
    case Back(x) => NulledAt(b, x, i);
  }

  // The C string that starts at position i.
  function CString(b: string, i: nat): string
    requires i <= |b|
    decreases |b| - i
  {
    if i == |b| || b[i] == NUL then "" else [b[i]] + CString(b, i + 1)
  }

  lemma {:induction false} ReadsTo(b: string, i: nat, j: nat)
    requires i <= j < |b| && b[j] == NUL && forall k :: i <= k < j ==> b[k] != NUL
    ensures CString(b, i) == b[i..j]
    decreases j - i
  {
    if i < j {
      ReadsTo(b, i + 1, j);
      assert b[i..j] == [b[i]] + b[i + 1..j];
    }
  }

  lemma {:induction false} EndsAreDelimiters(s: string, c: Cmd<Span>, i: nat)
    requires WordsOk(w => SpanOk(s, w), c) && EndOf(c, i)
    ensures i <= |s| && (i < |s| ==> Delimiter(s[i]))
  {
    match c
    case Exec(argv) =>
      var k :| 0 <= k < |argv| && argv[k].eq == i;
      assert SpanOk(s, argv[k]);
    case Redir(x, f, _) => if EndOf(x, i) { EndsAreDelimiters(s, x, i); } else { assert SpanOk(s, f); }
    case Pipe(l, r) => if EndOf(l, i) { EndsAreDelimiters(s, l, i); } else { EndsAreDelimiters(s, r, i); }
    case List(l, r) => if EndOf(l, i) { EndsAreDelimiters(s, l, i); } else { EndsAreDelimiters(s, r, i); }
    case Back(x) => EndsAreDelimiters(s, x, i);
  }

  predicate NulFree(s: string) {
    forall i :: 0 <= i < |s| ==> s[i] != NUL
  }

  // The buffer holds s as a C string, perhaps with more behind its NUL.
  predicate Holds(b: string, s: string) {
    |s| < |b| && b[..|s|] == s && b[|s|] == NUL && NulFree(s)
  }

  /** After nulterminate, every word whose end is stored in the command reads as the word parsed. */
  lemma WordsRead(s: string, b: string, c: Cmd<Span>, w: Span)
    requires Holds(b, s) && WordsOk(v => SpanOk(s, v), c) && SpanOk(s, w) && EndOf(c, w.eq)
    ensures CString(Nulled(b, c), w.q) == Text(s, w)
  {
    var r := Nulled(b, c);
    assert forall i :: 0 <= i < |s| ==> b[i] == b[..|s|][i];
    forall i | w.q <= i < w.eq ensures r[i] == s[i] != NUL {
      NulledAt(b, c, i);
      if EndOf(c, i) { EndsAreDelimiters(s, c, i); }
    }
    NulledAt(b, c, w.eq);
    ReadsTo(r, w.q, w.eq);
    assert r[w.q..w.eq] == s[w.q..w.eq];
  }

  // The word, taken as a C string of buffer b, is the word of the text.
  predicate Reads(s: string, b: string, w: Span) {
    w.q <= |b| && CString(b, w.q) == Text(s, w)
  }

  predicate AllRead(s: string, b: string, c: Cmd<Span>) {
    WordsOk(w => Reads(s, b, w), c)
  }

  // x is part of c.
  lemma {:induction false} PartReads(s: string, b: string, c: Cmd<Span>, x: Cmd<Span>)
    requires Holds(b, s) && WordsOk(v => SpanOk(s, v), c) && WordsOk(v => SpanOk(s, v), x)
    requires forall i: nat :: EndOf(x, i) ==> EndOf(c, i)
    ensures AllRead(s, Nulled(b, c), x)
  {
    match x
    case Exec(argv) =>
      forall k | 0 <= k < |argv| ensures Reads(s, Nulled(b, c), argv[k]) {
        assert EndOf(x, argv[k].eq);
        WordsRead(s, b, c, argv[k]);
      }
    case Redir(y, f, _) =>
      assert forall i: nat :: EndOf(y, i) ==> EndOf(x, i);
      PartReads(s, b, c, y);
      assert EndOf(x, f.eq);
      WordsRead(s, b, c, f);
    case Pipe(l, r) =>
      assert forall i: nat :: EndOf(l, i) || EndOf(r, i) ==> EndOf(x, i);
      PartReads(s, b, c, l);
      PartReads(s, b, c, r);
    case List(l, r) =>
      assert forall i: nat :: EndOf(l, i) || EndOf(r, i) ==> EndOf(x, i);
      PartReads(s, b, c, l);
      PartReads(s, b, c, r);
    case Back(y) =>
      assert forall i: nat :: EndOf(y, i) ==> EndOf(x, i);
      PartReads(s, b, c, y);
  }

  /** NUL termination in place is safe: after any successful parse, every stored end pointer addresses a
      delimiter or the final NUL, and every argument and file name reads exactly as the word parsed. */
  lemma TerminationIsSafe(s: string, b: string)
    requires Holds(b, s) && ParseLine(Lex(s, 0)).Ok?
    ensures var c := ParseLine(Lex(s, 0)).cmd;
      && (forall i: nat :: EndOf(c, i) ==> i <= |s| && (i < |s| ==> Delimiter(s[i])))
      && AllRead(s, Nulled(b, c), c)
  {
    var c := ParseLine(Lex(s, 0)).cmd;
    LexOk(s, 0);
    ParsedWordsOk(w => SpanOk(s, w), Lex(s, 0));
    PartReads(s, b, c, c);
    forall i: nat | EndOf(c, i) ensures i <= |s| && (i < |s| ==> Delimiter(s[i])) {
      EndsAreDelimiters(s, c, i);
    }
  }

  // ---------- printing to text ----------

  predicate GoodWord(w: string) {
    w != "" && forall i :: 0 <= i < |w| ==> !Delimiter(w[i]) && w[i] != NUL
  }

  function TokenText(t: Token<string>): string {
    match t
    case Bar => "|" case Open => "(" case Close => ")" case Semi => ";"
    case Amp => "&" case Lt => "<" case Gt => ">" case GtGt => ">>"
    case Word(w) => w
  }

  /** Each token followed by a blank. */
  function Render(ts: seq<Token<string>>): string {
    if ts == [] then "" else TokenText(ts[0]) + " " + Render(ts[1..])
  }

  lemma {:induction false} WordEndAt(s: string, i: nat, j: nat)
    requires i <= j < |s| && Delimiter(s[j]) && forall k :: i <= k < j ==> !Delimiter(s[k])
    ensures WordEnd(s, i) == j
    decreases j - i
  {
    if i < j { WordEndAt(s, i + 1, j); }
  }

  // The first token of a rendering is scanned as itself.
  lemma FirstRendered(s: string, i: nat, t: Token<string>)
    requires t.Word? ==> GoodWord(t.w)
    requires i + |TokenText(t)| < |s| && s[i..i + |TokenText(t)|] == TokenText(t) && s[i + |TokenText(t)|] == ' '
    ensures Skip(s, i) == i
    ensures var r := TokenAt(s, i); r.1 == i + |TokenText(t)| && MapToken(TextOf(s), r.0) == t
  {
    var x, e := TokenText(t), i + |TokenText(t)|;
    assert forall k :: i <= k < e ==> s[k] == x[k - i];
    assert x != "" && s[i] == x[0];
    if t.Word? { WordEndAt(s, i, e); }
  }

  lemma {:induction false} LexRender(s: string, i: nat, ts: seq<Token<string>>)
    requires i <= |s| && s[i..] == Render(ts) && TokensOk(GoodWord, ts)
    ensures MapTokens(TextOf(s), Lex(s, i)) == ts
    decreases |ts|
  {
    hide Lex, Render, TokenAt, Text, TextOf, MapTokens, MapToken, TokenText, Skip;
    if ts != [] {
      var e := RenderSplit(s, i, ts);
      FirstRendered(s, i, ts[0]);
      LexRender(s, e + 1, ts[1..]);
      LexStep(s, i, e);
      MapCons(TextOf(s), TokenAt(s, i).0, Lex(s, e + 1));
      assert ts == [ts[0]] + ts[1..];
    } else {
      NothingRendered(s, i);
    }
  }

  lemma NothingRendered(s: string, i: nat)
    requires i <= |s| && s[i..] == Render([])
    ensures MapTokens(TextOf(s), Lex(s, i)) == []
  {
    assert i == |s|;
  }

  lemma RenderSplit(s: string, i: nat, ts: seq<Token<string>>) returns (e: nat)
    requires i <= |s| && s[i..] == Render(ts) && ts != []
    ensures e == i + |TokenText(ts[0])| < |s| && s[i..e] == TokenText(ts[0]) && s[e] == ' '
    ensures s[e + 1..] == Render(ts[1..])
  {
    var x, rest := TokenText(ts[0]), Render(ts[1..]);
    e := i + |x|;
    assert s[i..] == x + " " + rest;
    assert s[i..e] == s[i..][..|x|] == x && s[e] == s[i..][|x|] == ' ';
    assert s[e + 1..] == s[i..][|x| + 1..] == rest;
  }

  lemma LexStep(s: string, i: nat, e: nat)
    requires i < e < |s| && Skip(s, i) == i && !White(s[i]) && TokenAt(s, i).1 == e && s[e] == ' '
    ensures Lex(s, i) == [TokenAt(s, i).0] + Lex(s, e + 1)
  {
    hide TokenAt;
    assert Skip(s, e) == Skip(s, e + 1);
  }

  lemma MapCons<W, V>(f: W -> V, t: Token<W>, ts: seq<Token<W>>)
    ensures MapTokens(f, [t] + ts) == [MapToken(f, t)] + MapTokens(f, ts)
  {
  }

  // ---------- the round trip ----------

  lemma {:induction false} PrintedOk<W>(ok: W -> bool, c: Cmd<W>)
    requires WordsOk(ok, c)
    ensures TokensOk(ok, PrintLine(c)) && TokensOk(ok, PrintBack(c)) && TokensOk(ok, PrintPipe(c)) && TokensOk(ok, PrintExec(c))
  {
    match c
    case Exec(argv) =>
      assert PrintPipe(c) == PrintExec(c) && PrintBack(c) == PrintPipe(c) && PrintLine(c) == PrintBack(c);
    case Redir(x, f, out) =>
      PrintedOk(ok, x);
      assert PrintPipe(c) == PrintExec(c) && PrintBack(c) == PrintPipe(c) && PrintLine(c) == PrintBack(c);
    case Pipe(l, r) =>
      PrintedOk(ok, l);
      PrintedOk(ok, r);
      assert PrintBack(c) == PrintPipe(c) && PrintLine(c) == PrintBack(c) && PrintExec(c) == [Open] + PrintLine(c) + [Close];
    case List(l, r) =>
      PrintedOk(ok, l);
      PrintedOk(ok, r);
      assert PrintExec(c) == [Open] + PrintLine(c) + [Close] && PrintPipe(c) == PrintExec(c) && PrintBack(c) == PrintPipe(c);
    case Back(x) =>
      PrintedOk(ok, x);
      assert PrintLine(c) == PrintBack(c) && PrintExec(c) == [Open] + PrintLine(c) + [Close] && PrintPipe(c) == PrintExec(c);
  }

  /** What parsecmd accepts: a line with nothing left over. */
  function ParseText(s: string): Option<Cmd<Span>> {
    var r := ParseLine(Lex(s, 0));
    if r.Ok? && r.rest == [] then Some(r.cmd) else None
  }

  /** Printing any command with at most MAXARGS - 1 arguments per exec node and with words free of white
      space, symbols and NUL, and parsing the text, gives back the same command. */
  lemma RoundTrip(c: Cmd<string>)
    requires Printable(c) && WordsOk(GoodWord, c)
    ensures var s := Render(PrintLine(c)); ParseText(s).Some? && MapCmd(TextOf(s), ParseText(s).value) == c
  {
    var s := Render(PrintLine(c));
    PrintedOk(GoodWord, c);
    LexRender(s, 0, PrintLine(c));
    LineMap(TextOf(s), Lex(s, 0));
    PrintParse(c);
  }

  lemma {:induction false} MappedOk(s: string, c: Cmd<Span>)
    requires WordsOk(w => SpanOk(s, w), c) && NulFree(s)
    ensures WordsOk(GoodWord, MapCmd(TextOf(s), c)) && (Printable(c) ==> Printable(MapCmd(TextOf(s), c)))
  {
    match c
    case Exec(argv) =>
      forall i | 0 <= i < |argv| ensures GoodWord(MapWords(TextOf(s), argv)[i]) { assert SpanOk(s, argv[i]); }
    case Redir(x, f, _) => MappedOk(s, x);
    case Pipe(l, r) => MappedOk(s, l); MappedOk(s, r);
    case List(l, r) => MappedOk(s, l); MappedOk(s, r);
    case Back(x) => MappedOk(s, x);
  }

  /** Every command line that the shell accepts is the text of a command that can be printed and parsed again,
      to the same command. */
  lemma AcceptedRoundTrip(s: string)
    requires NulFree(s) && ParseText(s).Some?
    ensures var c := MapCmd(TextOf(s), ParseText(s).value); var s' := Render(PrintLine(c));
      ParseText(s').Some? && MapCmd(TextOf(s'), ParseText(s').value) == c
  {
    var c := ParseText(s).value;
    LexOk(s, 0);
    ParsedWordsOk(w => SpanOk(s, w), Lex(s, 0));
    LinePrintable(Lex(s, 0));
    MappedOk(s, c);
    RoundTrip(MapCmd(TextOf(s), c));
  }
}
