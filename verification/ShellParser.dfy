/** The code of sh.c that turns a line into a command: scanner, recursive-descent parser, and the
    in-place NUL termination, each proved against the grammar. Positions stand for pointers; the text
    `s` is the line up to its NUL. */
module ShellParser {
  import G = ShellGrammar
  import opened ShellText
  import opened Wrappers

  type Command = G.Cmd<Span>

  // ---------- gettoken and peek ----------

  // The loop that both functions begin with.
  method SkipWhite(s: string, i: nat) returns (j: nat)
    requires i <= |s|
    ensures j == Skip(s, i)
  {
    j := i;
    while j < |s| && White(s[j])
      invariant i <= j <= |s| && Skip(s, j) == Skip(s, i)
    {
      j := j + 1;
    }
  }

  // The token that a return value of gettoken stands for.
  function TokenFor(ret: char, q: nat, eq: nat): G.Token<Span>
    requires ret == 'a' || ret == '+' || Symbol(ret)
  {
    if ret == 'a' then G.Word(Span(q, eq)) else if ret == '+' then G.GtGt else SymbolToken(ret)
  }

  // The switch of gettoken, at a character that is not white space.
  method Scan(s: string, q: nat) returns (ret: char, eq: nat)
    requires q < |s| && !White(s[q]) && NulFree(s)
    ensures q <= eq <= |s| && (ret == 'a' || ret == '+' || Symbol(ret))
    ensures TokenAt(s, q) == (TokenFor(ret, q, eq), eq)
  {
    ret, eq := s[q], q;
    if ret == '>' {
      eq := q + 1;
      if eq < |s| && s[eq] == '>' {
        ret, eq := '+', q + 2;
      }
    } else if Symbol(ret) {
      eq := q + 1;
    } else {
      ret := 'a';
      while eq < |s| && !White(s[eq]) && !Symbol(s[eq])
        invariant q <= eq <= |s| && WordEnd(s, eq) == WordEnd(s, q)
      {
        eq := eq + 1;
      }
    }
  }

  /** gettoken: takes the first token off the text, or returns NUL at its end. */
  method GetToken(s: string, i: nat) returns (ret: char, q: nat, eq: nat, next: nat)
    requires i <= |s| && NulFree(s)
    ensures i <= q <= eq <= next <= |s| && Skip(s, next) == next
    ensures ret == NUL || ret == 'a' || ret == '+' || Symbol(ret)
    ensures if ret == NUL then Lex(s, i) == [] && next == |s| else Lex(s, i) == [TokenFor(ret, q, eq)] + Lex(s, next)
  {
    q := SkipWhite(s, i);
    LexSkip(s, i);
    if q == |s| {
      return NUL, q, q, q;
    }
    LexFirst(s, q);
    ret, eq := Scan(s, q);
    hide Lex, TokenAt, TokenFor;
    next := SkipWhite(s, eq);
    LexSkip(s, eq);
  }

  /** peek: moves past white space and looks at the next character. */
  method Peek(s: string, i: nat, toks: string) returns (j: nat, b: bool)
    requires i <= |s| && NulFree(s)
    ensures j == Skip(s, i) && Skip(s, j) == j && Lex(s, j) == Lex(s, i)
    ensures b <==> j < |s| && s[j] in toks
  {
    j := SkipWhite(s, i);
    LexSkip(s, i);
    b := j < |s| && s[j] in toks;
  }

  // What the character at the next position says about the next token.
  lemma NextToken(s: string, j: nat)
    requires j <= |s| && Skip(s, j) == j
    ensures j == |s| <==> Lex(s, j) == []
    ensures j < |s| ==>
      var t := Lex(s, j)[0];
      && (s[j] == '|' <==> t.Bar?) && (s[j] == '(' <==> t.Open?) && (s[j] == ')' <==> t.Close?)
      && (s[j] == ';' <==> t.Semi?) && (s[j] == '&' <==> t.Amp?) && (s[j] == '<' <==> t.Lt?)
      && (s[j] == '>' <==> t.Gt? || t.GtGt?) && (!Symbol(s[j]) <==> t.Word?)
  {
  }

  // ---------- the parser ----------

  ghost function Outcome(s: string, r: Option<Command>, j: nat): G.Result<Span>
    requires j <= |s|
  {
    if r.None? then G.Panic else G.Ok(r.value, Lex(s, j))
  }

  /** parseredirs, which collects the files; None is the panic "missing file for redirection". */
  method ParseRedirs(s: string, i: nat, done: seq<G.File<Span>>) returns (files: Option<seq<G.File<Span>>>, j: nat)
    requires i <= |s| && NulFree(s)
    ensures j <= |s|
    ensures G.ParseRedirs(done, Lex(s, i)) == if files.None? then G.NoFile else G.Files(files.value, Lex(s, j))
  {
    hide Lex, Skip;
    var fs := done;
    var more;
    j, more := Peek(s, i, "<>");
    NextToken(s, j);
    while more
      invariant j <= |s| && Skip(s, j) == j && (more <==> G.Redirects(Lex(s, j)))
      invariant G.ParseRedirs(fs, Lex(s, j)) == G.ParseRedirs(done, Lex(s, i))
      decreases |Lex(s, j)|
    {
      ghost var ts := Lex(s, j);
      var tok, q, eq, k := GetToken(s, j);
      assert ts[1..] == Lex(s, k);
      var w, wq, weq, k2 := GetToken(s, k);
      if w != 'a' {
        assert |ts| > 1 ==> ts[1] == Lex(s, k)[0];
        return None, k2;
      }
      assert ts[1] == Lex(s, k)[0] && ts[2..] == Lex(s, k2);
      fs := fs + [G.File(Span(wq, weq), tok != '<')];
      j, more := Peek(s, k2, "<>");
      NextToken(s, j);
    }
    files := Some(fs);
  }

  /** parseexec. The exec node's argument array is kept aside until the node is complete. */
  method ParseExec(s: string, i: nat) returns (r: Option<Command>, j: nat)
    requires i <= |s| && NulFree(s)
    ensures j <= |s| && Outcome(s, r, j) == G.ParseExec(Lex(s, i))
    decreases |Lex(s, i)|, 1
  {
    var open;
    j, open := Peek(s, i, "(");
    NextToken(s, j);
    if open {
      r, j := ParseBlock(s, j);
      return;
    }
    var files;
    files, j := ParseRedirs(s, j, []);
    if files.None? { return None, j; }
    r, j := ParseArgs(s, j, files.value);
  }

  // The loop of parseexec.
  method ParseArgs(s: string, i: nat, files: seq<G.File<Span>>) returns (r: Option<Command>, j: nat)
    requires i <= |s| && NulFree(s)
    ensures j <= |s| && Outcome(s, r, j) == G.ParseArgs([], files, Lex(s, i))
  {
    hide G.Wrap, Lex, Skip;
    var fs, argv := files, [];
    var stop;
    j, stop := Peek(s, i, "|)&;");
    NextToken(s, j);
    while !stop
      invariant j <= |s| && Skip(s, j) == j && (stop <==> G.Stops(Lex(s, j))) && |argv| < G.MAXARGS
      invariant G.ParseArgs(argv, fs, Lex(s, j)) == G.ParseArgs([], files, Lex(s, i))
      decreases |Lex(s, j)|, !stop
    {
      ghost var ts := Lex(s, j);
      var tok, q, eq, k := GetToken(s, j);
      if tok == NUL { break; }
      assert ts[0] == TokenFor(tok, q, eq) && ts[1..] == Lex(s, k);
      if tok != 'a' { return None, k; }
      argv := argv + [Span(q, eq)];
      if |argv| >= G.MAXARGS { return None, k; }
      var more;
      more, k := ParseRedirs(s, k, fs);
      if more.None? { return None, k; }
      fs := more.value;
      j, stop := Peek(s, k, "|)&;");
      NextToken(s, j);
    }
    r := Some(G.Wrap(G.Exec(argv), fs));
  }

  method ParseBlock(s: string, i: nat) returns (r: Option<Command>, j: nat)
    requires i <= |s| && NulFree(s) && Lex(s, i) != [] && Lex(s, i)[0].Open?
    ensures j <= |s| && Outcome(s, r, j) == G.ParseBlock(Lex(s, i))
    decreases |Lex(s, i)|, 0
  {
    ghost var ts := Lex(s, i);
    var tok, q, eq, k := GetToken(s, i);
    assert ts[1..] == Lex(s, k);
    r, k := ParseLine(s, k);
    if r.None? { return None, k; }
    var close;
    j, close := Peek(s, k, ")");
    NextToken(s, j);
    if !close { return None, j; }
    ghost var ts2 := Lex(s, j);
    tok, q, eq, k := GetToken(s, j);
    assert ts2[1..] == Lex(s, k);
    var files;
    files, j := ParseRedirs(s, k, []);
    if files.None? { return None, j; }
    r := Some(G.Wrap(r.value, files.value));
  }

  method ParsePipe(s: string, i: nat) returns (r: Option<Command>, j: nat)
    requires i <= |s| && NulFree(s)
    ensures j <= |s| && Outcome(s, r, j) == G.ParsePipe(Lex(s, i))
    decreases |Lex(s, i)|, 2
  {
    var k;
    r, k := ParseExec(s, i);
    if r.None? { return None, k; }
    var bar;
    j, bar := Peek(s, k, "|");
    NextToken(s, j);
    if bar {
      ghost var ts := Lex(s, j);
      var tok, q, eq, k2 := GetToken(s, j);
      assert ts[1..] == Lex(s, k2);
      var right;
      right, j := ParsePipe(s, k2);
      if right.None? { return None, j; }
      r := Some(G.Pipe(r.value, right.value));
    }
  }

  method ParseLine(s: string, i: nat) returns (r: Option<Command>, j: nat)
    requires i <= |s| && NulFree(s)
    ensures j <= |s| && Outcome(s, r, j) == G.ParseLine(Lex(s, i))
    decreases |Lex(s, i)|, 3
  {
    var k;
    r, k := ParsePipe(s, i);
    if r.None? { return None, k; }
    var c := r.value;
    c, j := ParseBacks(s, k, c);
    var semi;
    j, semi := Peek(s, j, ";");
    NextToken(s, j);
    if semi {
      ghost var ts := Lex(s, j);
      var tok, q, eq, k2 := GetToken(s, j);
      assert ts[1..] == Lex(s, k2);
      var right;
      right, j := ParseLine(s, k2);
      if right.None? { return None, j; }
      c := G.List(c, right.value);
    }
    r := Some(c);
  }

  // The loop of parseline.
  method ParseBacks(s: string, i: nat, c: Command) returns (r: Command, j: nat)
    requires i <= |s| && NulFree(s)
    ensures j <= |s| && G.ParseBacks(c, Lex(s, i)) == (r, Lex(s, j))
  {
    r := c;
    var amp;
    j, amp := Peek(s, i, "&");
    NextToken(s, j);
    while amp
      invariant j <= |s| && Skip(s, j) == j && (amp <==> Lex(s, j) != [] && Lex(s, j)[0].Amp?)
      invariant G.ParseBacks(r, Lex(s, j)) == G.ParseBacks(c, Lex(s, i))
      decreases |Lex(s, j)|
    {
      ghost var ts := Lex(s, j);
      var tok, q, eq, k := GetToken(s, j);
      assert ts[1..] == Lex(s, k);
      r := G.Back(r);
      j, amp := Peek(s, k, "&");
      NextToken(s, j);
    }
  }

  // ---------- nulterminate and parsecmd ----------

  /** nulterminate: a NUL at every stored end pointer. */
  method NulTerminate(buf: array<char>, c: Command)
    requires forall i: nat :: EndOf(c, i) ==> i < buf.Length
    modifies buf
    ensures buf[..] == Nulled(old(buf[..]), c)
    decreases c
  {
    match c
    case Exec(argv) =>
      ghost var b := buf[..];
      var i := 0;
      while i < |argv|
        invariant 0 <= i <= |argv| && buf[..] == NulledWords(b, argv[..i])
      {
        assert argv[..i + 1][..i] == argv[..i] && EndOf(c, argv[i].eq);
        buf[argv[i].eq] := NUL;
        i := i + 1;
      }
      assert argv[..i] == argv;
    case Redir(x, f, _) =>
      assert EndOf(c, f.eq) && forall i: nat :: EndOf(x, i) ==> EndOf(c, i);
      NulTerminate(buf, x);
      buf[f.eq] := NUL;
    case Pipe(l, r) =>
      assert forall i: nat :: EndOf(l, i) || EndOf(r, i) ==> EndOf(c, i);
      NulTerminate(buf, l);
      NulTerminate(buf, r);
    case List(l, r) =>
      assert forall i: nat :: EndOf(l, i) || EndOf(r, i) ==> EndOf(c, i);
      NulTerminate(buf, l);
      NulTerminate(buf, r);
    case Back(x) =>
      assert forall i: nat :: EndOf(x, i) ==> EndOf(c, i);
      NulTerminate(buf, x);
  }

  /** parsecmd: the command that the text of the buffer denotes, or None for a syntax panic. On success
      every word of the command can be read from the buffer as a C string. */
  method ParseCmd(buf: array<char>) returns (r: Option<Command>)
    requires exists n :: 0 <= n < buf.Length && buf[n] == NUL
    modifies buf
    ensures var s := CString(old(buf[..]), 0);
      r == ParseText(s) && (r.Some? ==> AllRead(s, buf[..], r.value))
    ensures r == None ==> buf[..] == old(buf[..])
  {
    var es := 0;
    while buf[es] != NUL
      invariant 0 <= es < buf.Length && (exists n :: es <= n < buf.Length && buf[n] == NUL)
      invariant forall k :: 0 <= k < es ==> buf[k] != NUL
      decreases buf.Length - es
    {
      es := es + 1;
    }
    hide Lex, Skip, G.ParseLine, AllRead, CString, Nulled, EndOf;
    ghost var b := buf[..];
    var s := buf[..es];
    ReadsTo(b, 0, es);
    assert s == b[0..es] == CString(b, 0);
    var c, k := ParseLine(s, 0);
    if c.None? { return None; }
    var j, _ := Peek(s, k, "");
    NextToken(s, j);
    if j != es { return None; }
    TerminationIsSafe(s, b);
    NulTerminate(buf, c.value);
    r := c;
  }
}
