/** The grammar of sh.c over tokens: what the recursive-descent parser builds, a printer that puts
    parentheses only where the grammar needs them, and the proof that parsing undoes printing. */
module ShellGrammar {
  const MAXARGS: nat := 10

  datatype Token<W> = Bar | Open | Close | Semi | Amp | Lt | Gt | GtGt | Word(w: W)

  /** Commands. A redirection names a file and says whether it is for output (descriptor 1) or input. */
  datatype Cmd<W> = Exec(argv: seq<W>) | Redir(cmd: Cmd<W>, file: W, out: bool)
                  | Pipe(left: Cmd<W>, right: Cmd<W>) | List(left: Cmd<W>, right: Cmd<W>) | Back(cmd: Cmd<W>)

  datatype File<W> = File(name: W, out: bool)

  // A parser's outcome: a panic, or a command and the tokens after it.
  datatype Result<W> = Panic | Ok(cmd: Cmd<W>, rest: seq<Token<W>>)

  // ---------- parseredirs ----------

  datatype Files<W> = NoFile | Files(files: seq<File<W>>, rest: seq<Token<W>>)

  predicate Redirects<W>(ts: seq<Token<W>>) {
    ts != [] && (ts[0].Lt? || ts[0].Gt? || ts[0].GtGt?)
  }

  /** The redirections at the front of ts, after those already read. `>` and `>>` open the file alike. */
  function ParseRedirs<W>(done: seq<File<W>>, ts: seq<Token<W>>): (r: Files<W>)
    ensures r.Files? ==> |r.rest| <= |ts| && (Redirects(ts) ==> |r.rest| < |ts|)
    decreases |ts|
  {
    if !Redirects(ts) then Files(done, ts)
    else if |ts| > 1 && ts[1].Word? then ParseRedirs(done + [File(ts[1].w, !ts[0].Lt?)], ts[2..])
    else NoFile
  }

  // Each redirection wraps the command read so far.
  function Wrap<W>(c: Cmd<W>, files: seq<File<W>>): Cmd<W> {
    if files == [] then c else Redir(Wrap(c, files[..|files| - 1]), files[|files| - 1].name, files[|files| - 1].out)
  }

  // ---------- parseexec, parseblock, parsepipe, parseline ----------

  // The test peek(ps, es, "|)&;").
  predicate Stops<W>(ts: seq<Token<W>>) {
    ts != [] && (ts[0].Bar? || ts[0].Close? || ts[0].Amp? || ts[0].Semi?)
  }

  /** The loop of parseexec, with the arguments and redirections read so far. The exec node is filled in
      after redirections have been wrapped around it. */
  function ParseArgs<W>(argv: seq<W>, files: seq<File<W>>, ts: seq<Token<W>>): (r: Result<W>)
    ensures r.Ok? ==> |r.rest| <= |ts|
    decreases |ts|
  {
    if ts == [] || Stops(ts) then Ok(Wrap(Exec(argv), files), ts)
    else if !ts[0].Word? || |argv| + 1 >= MAXARGS then Panic
    else
      var fs := ParseRedirs(files, ts[1..]);
      if fs.NoFile? then Panic else ParseArgs(argv + [ts[0].w], fs.files, fs.rest)
  }

  function ParseExec<W>(ts: seq<Token<W>>): (r: Result<W>)
    ensures r.Ok? ==> |r.rest| <= |ts|
    decreases |ts|, 1
  {
    if ts != [] && ts[0].Open? then ParseBlock(ts) else
      var fs := ParseRedirs([], ts);
      if fs.NoFile? then Panic else ParseArgs([], fs.files, fs.rest)
  }

  function ParseBlock<W>(ts: seq<Token<W>>): (r: Result<W>)
    requires ts != [] && ts[0].Open?
    ensures r.Ok? ==> |r.rest| < |ts|
    decreases |ts|, 0
  {
    var r := ParseLine(ts[1..]);
    if r.Panic? || r.rest == [] || !r.rest[0].Close? then Panic else
      var fs := ParseRedirs([], r.rest[1..]);
      if fs.NoFile? then Panic else Ok(Wrap(r.cmd, fs.files), fs.rest)
  }

  function ParsePipe<W>(ts: seq<Token<W>>): (r: Result<W>)
    ensures r.Ok? ==> |r.rest| <= |ts|
    decreases |ts|, 2
  {
    var r := ParseExec(ts);
    if r.Panic? || r.rest == [] || !r.rest[0].Bar? then r else
      var r2 := ParsePipe(r.rest[1..]);
      if r2.Panic? then Panic else Ok(Pipe(r.cmd, r2.cmd), r2.rest)
  }

  // The loop of parseline.
  function ParseBacks<W>(c: Cmd<W>, ts: seq<Token<W>>): (r: (Cmd<W>, seq<Token<W>>))
    ensures |r.1| <= |ts|
    decreases |ts|
  {
    if ts != [] && ts[0].Amp? then ParseBacks(Back(c), ts[1..]) else (c, ts)
  }

  function ParseLine<W>(ts: seq<Token<W>>): (r: Result<W>)
    ensures r.Ok? ==> |r.rest| <= |ts|
    decreases |ts|, 3
  {
    var r := ParsePipe(ts);
    if r.Panic? then Panic else
      var (c, rest) := ParseBacks(r.cmd, r.rest);
      if rest == [] || !rest[0].Semi? then Ok(c, rest) else
        var r2 := ParseLine(rest[1..]);
        if r2.Panic? then Panic else Ok(List(c, r2.cmd), r2.rest)
  }

  // ---------- printing ----------

  function Words<W>(argv: seq<W>): (ts: seq<Token<W>>)
    ensures |ts| == |argv|
  {
    seq(|argv|, i requires 0 <= i < |argv| => Word(argv[i]))
  }

  function PrintFile<W>(f: File<W>): seq<Token<W>> {
    [if f.out then Gt else Lt, Word(f.name)]
  }

  // The four levels of the grammar. A command that a level cannot express goes in parentheses.
  function PrintLine<W>(c: Cmd<W>): seq<Token<W>>
    decreases c, if c.List? then 0 else if c.Back? then 1 else if c.Pipe? then 2 else 3
  {
    if c.List? then PrintBack(c.left) + [Semi] + PrintLine(c.right) else PrintBack(c)
  }

  function PrintBack<W>(c: Cmd<W>): seq<Token<W>>
    decreases c, if c.List? then 3 else if c.Back? then 0 else if c.Pipe? then 1 else 2
  {
    if c.Back? then PrintBack(c.cmd) + [Amp] else PrintPipe(c)
  }

  function PrintPipe<W>(c: Cmd<W>): seq<Token<W>>
    decreases c, if c.List? then 2 else if c.Back? then 3 else if c.Pipe? then 0 else 1
  {
    if c.Pipe? then PrintExec(c.left) + [Bar] + PrintPipe(c.right) else PrintExec(c)
  }

  function PrintExec<W>(c: Cmd<W>): seq<Token<W>>
    decreases c, if c.List? then 1 else if c.Back? then 2 else if c.Pipe? then 3 else 0
  {
    match c
    case Exec(argv) => Words(argv)
    case Redir(x, f, out) => PrintExec(x) + PrintFile(File(f, out))
    case _ => [Open] + PrintLine(c) + [Close]
  }

  /** Commands that fit the parser's tables. */
  predicate Printable<W>(c: Cmd<W>) {
    match c
    case Exec(argv) => |argv| < MAXARGS
    case Redir(x, _, _) => Printable(x)
    case Pipe(l, r) => Printable(l) && Printable(r)
    case List(l, r) => Printable(l) && Printable(r)
    case Back(x) => Printable(x)
  }

  // ---------- what a simple command means ----------

  predicate RedirSym<W>(t: Token<W>) {
    t.Lt? || t.Gt? || t.GtGt?
  }

  // The tokens up to the one that ends the command.
  function Upto<W>(ts: seq<Token<W>>): (p: seq<Token<W>>)
    ensures |p| <= |ts| && p == ts[..|p|]
  {
    if ts == [] || Stops(ts) then [] else [ts[0]] + Upto(ts[1..])
  }

  // The word at the end of p names a file.
  predicate NamesFile<W>(p: seq<Token<W>>) {
    |p| > 1 && p[|p| - 1].Word? && RedirSym(p[|p| - 2])
  }

  /** The arguments: the words that do not follow a redirection symbol. */
  function ArgWords<W>(p: seq<Token<W>>): seq<W> {
    if p == [] then [] else
      ArgWords(p[..|p| - 1]) + if p[|p| - 1].Word? && !NamesFile(p) then [p[|p| - 1].w] else []
  }

  /** The redirections: the words that do; the direction is in only after `<`. */
  function RedirFiles<W>(p: seq<Token<W>>): seq<File<W>> {
    if p == [] then [] else
      RedirFiles(p[..|p| - 1]) + if NamesFile(p) then [File(p[|p| - 1].w, p[|p| - 2] != Lt)] else []
  }

  /** Words and redirection symbols only, and every symbol has its file. */
  ghost predicate WellFormed<W>(p: seq<Token<W>>) {
    forall k: nat :: k < |p| ==> FormedAt(p, k)
  }

  predicate FormedAt<W>(p: seq<Token<W>>, k: nat)
    requires k < |p|
  {
    p[k].Word? || (RedirSym(p[k]) && k + 1 < |p| && p[k + 1].Word?)
  }

  // p does not end in a redirection symbol, so what follows is read on its own.
  predicate Closed<W>(p: seq<Token<W>>) {
    p == [] || !RedirSym(p[|p| - 1])
  }

  lemma {:induction false} PartsConcat<W>(p: seq<Token<W>>, q: seq<Token<W>>)
    requires Closed(p)
    ensures ArgWords(p + q) == ArgWords(p) + ArgWords(q) && RedirFiles(p + q) == RedirFiles(p) + RedirFiles(q)
    decreases |q|
  {
    if q == [] {
      assert p + q == p;
    } else {
      var n := |q| - 1;
      PartsConcat(p, q[..n]);
      assert (p + q)[..|p + q| - 1] == p + q[..n] && (p + q)[|p + q| - 1] == q[n];
      assert NamesFile(p + q) == NamesFile(q);
    }
  }

  lemma FormedConcat<W>(p: seq<Token<W>>, q: seq<Token<W>>)
    requires Closed(p) && WellFormed(p)
    ensures WellFormed(p + q) <==> WellFormed(q)
  {
    forall k: nat | k < |q| ensures FormedAt(p + q, |p| + k) == FormedAt(q, k) { }
    if WellFormed(q) {
      forall k: nat | k < |p + q| ensures FormedAt(p + q, k) {
        if k < |p| { assert FormedAt(p, k); } else { assert FormedAt(q, k - |p|); }
      }
    }
    if WellFormed(p + q) {
      forall k: nat | k < |q| ensures FormedAt(q, k) { assert FormedAt(p + q, |p| + k); }
    }
  }

  lemma UptoStep<W>(ts: seq<Token<W>>)
    requires ts != [] && !Stops(ts)
    ensures Upto(ts) == [ts[0]] + Upto(ts[1..])
  {
  }

  // The first token ends here, or is followed by what Upto says.
  lemma UptoPair<W>(ts: seq<Token<W>>)
    requires |ts| > 1 && !Stops(ts) && ts[1].Word?
    ensures Upto(ts) == [ts[0], ts[1]] + Upto(ts[2..])
  {
    UptoStep(ts);
    UptoStep(ts[1..]);
    assert ts[1..][1..] == ts[2..];
  }

  lemma OneWord<W>(w: W)
    ensures ArgWords([Word(w)]) == [w] && RedirFiles([Word(w)]) == [] && WellFormed([Word(w)]) && Closed([Word(w)])
  {
    assert [Word(w)][..0] == [];
  }

  lemma OnePair<W>(sym: Token<W>, w: W)
    requires RedirSym(sym)
    ensures var p := [sym, Word(w)];
      ArgWords(p) == [] && RedirFiles(p) == [File(w, sym != Lt)] && WellFormed(p) && Closed(p)
  {
    var p, q := [sym, Word(w)], [sym];
    assert p[..1] == q && q[..0] == [];
    assert !NamesFile(q) && NamesFile(p);
    assert RedirFiles(q[..0]) == [] && ArgWords(q[..0]) == [];
  }

  lemma BadStart<W>(ts: seq<Token<W>>)
    requires ts != [] && !Stops(ts) && !ts[0].Word? && !(RedirSym(ts[0]) && |ts| > 1 && ts[1].Word?)
    ensures !WellFormed(Upto(ts))
  {
    UptoStep(ts);
    var p := Upto(ts);
    assert p[0] == ts[0] && (|p| > 1 ==> p[1] == ts[1]);
    assert !FormedAt(p, 0);
  }

  // `used` are complete redirections at the front of ts, and rest comes after them.
  ghost predicate Takes<W>(ts: seq<Token<W>>, used: seq<Token<W>>, rest: seq<Token<W>>) {
    ts == used + rest && Upto(ts) == used + Upto(rest) && WellFormed(used) && Closed(used) && ArgWords(used) == []
  }

  /** parseredirs takes exactly the complete redirections at the front, in order; it panics only in front of
      a symbol without a file. */
  lemma {:induction false} RedirsExactly<W>(done: seq<File<W>>, ts: seq<Token<W>>) returns (used: seq<Token<W>>)
    ensures var r := ParseRedirs(done, ts);
      if r.NoFile? then !WellFormed(Upto(ts))
      else Takes(ts, used, r.rest) && !Redirects(r.rest) && r.files == done + RedirFiles(used)
    decreases |ts|
  {
    hide ParseRedirs, Upto, ArgWords, RedirFiles, WellFormed;
    used := [];
    if !Redirects(ts) {
      NoRedirs(done, ts);
      TakesNone(ts);
      assert done + [] == done;
    } else if |ts| > 1 && ts[1].Word? {
      var f, pair := File(ts[1].w, !ts[0].Lt?), [ts[0], ts[1]];
      var more := RedirsExactly(done + [f], ts[2..]);
      used := pair + more;
      UptoPair(ts);
      OnePair(ts[0], ts[1].w);
      RedirsOne(done, ts);
      var r := ParseRedirs(done + [f], ts[2..]);
      assert ts == pair + ts[2..];
      if r.NoFile? {
        FormedConcat(pair, Upto(ts[2..]));
      } else {
        TakesMore(ts, pair, ts[2..], more, r.rest);
        PartsConcat(pair, more);
        assert done + [f] + RedirFiles(more) == done + ([f] + RedirFiles(more));
      }
    } else {
      BadStart(ts);
      RedirsBad(done, ts);
    }
  }

  lemma RedirsOne<W>(done: seq<File<W>>, ts: seq<Token<W>>)
    requires Redirects(ts) && |ts| > 1 && ts[1].Word?
    ensures ParseRedirs(done, ts) == ParseRedirs(done + [File(ts[1].w, !ts[0].Lt?)], ts[2..])
  {
  }

  lemma RedirsBad<W>(done: seq<File<W>>, ts: seq<Token<W>>)
    requires Redirects(ts) && !(|ts| > 1 && ts[1].Word?)
    ensures ParseRedirs(done, ts) == NoFile
  {
  }

  lemma TakesNone<W>(ts: seq<Token<W>>)
    ensures Takes(ts, [], ts) && RedirFiles<W>([]) == []
  {
    assert ts == [] + ts && [] + Upto(ts) == Upto(ts);
  }

  lemma TakesMore<W>(ts: seq<Token<W>>, pair: seq<Token<W>>, ts1: seq<Token<W>>, more: seq<Token<W>>, rest: seq<Token<W>>)
    requires ts == pair + ts1 && Upto(ts) == pair + Upto(ts1) && WellFormed(pair) && Closed(pair) && ArgWords(pair) == []
    requires Takes(ts1, more, rest)
    ensures Takes(ts, pair + more, rest)
  {
    hide Upto, ArgWords, WellFormed;
    PartsConcat(pair, more);
    FormedConcat(pair, more);
    Regroup(pair, more, rest);
    Regroup(pair, more, Upto(rest));
  }

  lemma Regroup<T>(a: seq<T>, b: seq<T>, c: seq<T>)
    ensures a + (b + c) == a + b + c
  {
  }

  // The parts of a command whose first redirections have been taken.
  lemma TakenParts<W>(ts: seq<Token<W>>, used: seq<Token<W>>, rest: seq<Token<W>>)
    requires Takes(ts, used, rest)
    ensures ArgWords(Upto(ts)) == ArgWords(Upto(rest)) && RedirFiles(Upto(ts)) == RedirFiles(used) + RedirFiles(Upto(rest))
    ensures WellFormed(Upto(ts)) <==> WellFormed(Upto(rest))
    ensures ts[|Upto(ts)|..] == rest[|Upto(rest)|..]
  {
    hide Upto, ArgWords, RedirFiles, WellFormed;
    PartsConcat(used, Upto(rest));
    FormedConcat(used, Upto(rest));
    assert [] + ArgWords(Upto(rest)) == ArgWords(Upto(rest));
  }

  /** The simple command at the front of ts, after the arguments and files read so far. */
  ghost function Simple<W>(argv: seq<W>, files: seq<File<W>>, ts: seq<Token<W>>): Result<W> {
    var p := Upto(ts);
    if WellFormed(p) && |argv| + |ArgWords(p)| < MAXARGS
    then Ok(Wrap(Exec(argv + ArgWords(p)), files + RedirFiles(p)), ts[|p|..]) else Panic
  }

  lemma SimpleTaken<W>(argv: seq<W>, files: seq<File<W>>, ts: seq<Token<W>>, used: seq<Token<W>>, rest: seq<Token<W>>)
    requires Takes(ts, used, rest)
    ensures Simple(argv, files + RedirFiles(used), rest) == Simple(argv, files, ts)
  {
    hide Upto, ArgWords, RedirFiles, WellFormed, Wrap, Takes;
    TakenParts(ts, used, rest);
    var fs := RedirFiles(Upto(rest));
    assert files + RedirFiles(used) + fs == files + (RedirFiles(used) + fs);
  }

  lemma SimpleWord<W>(argv: seq<W>, files: seq<File<W>>, ts: seq<Token<W>>)
    requires ts != [] && ts[0].Word?
    ensures Simple(argv, files, ts) == Simple(argv + [ts[0].w], files, ts[1..])
    ensures |argv| + 1 >= MAXARGS ==> Simple(argv, files, ts) == Panic
  {
    UptoStep(ts);
    OneWord(ts[0].w);
    hide Upto, ArgWords, RedirFiles, WellFormed, Wrap;
    var q := Upto(ts[1..]);
    PartsConcat([ts[0]], q);
    FormedConcat([ts[0]], q);
    assert argv + [ts[0].w] + ArgWords(q) == argv + ([ts[0].w] + ArgWords(q));
    assert [] + RedirFiles(q) == RedirFiles(q);
    assert ts[|Upto(ts)|..] == ts[1..][|q|..];
  }

  lemma SimpleStop<W>(argv: seq<W>, files: seq<File<W>>, ts: seq<Token<W>>)
    requires (ts == [] || Stops(ts)) && |argv| < MAXARGS
    ensures Simple(argv, files, ts) == Ok(Wrap(Exec(argv), files), ts)
  {
    hide Wrap;
    assert argv + [] == argv && files + [] == files && ts[0..] == ts;
  }

  /** The loop of parseexec reads the rest of the simple command. */
  lemma {:induction false} ArgsExactly<W>(argv: seq<W>, files: seq<File<W>>, ts: seq<Token<W>>)
    requires |argv| < MAXARGS && !Redirects(ts)
    ensures ParseArgs(argv, files, ts) == Simple(argv, files, ts)
    decreases |ts|
  {
    hide Wrap, ParseRedirs, ParseArgs, Simple, Takes;
    if ts == [] || Stops(ts) {
      SimpleStop(argv, files, ts);
      ArgsEnd(argv, files, ts);
    } else if !ts[0].Word? {
      SimplePanics(argv, files, ts);
    } else {
      SimpleWord(argv, files, ts);
      var used := RedirsExactly(files, ts[1..]);
      var r := ParseRedirs(files, ts[1..]);
      ArgsRound(argv, files, ts);
      if r.NoFile? {
        NotFormed(argv + [ts[0].w], files, ts[1..]);
      } else if |argv| + 1 < MAXARGS {
        ArgsExactly(argv + [ts[0].w], r.files, r.rest);
        SimpleTaken(argv + [ts[0].w], files, ts[1..], used, r.rest);
      }
    }
  }

  lemma NotFormed<W>(argv: seq<W>, files: seq<File<W>>, ts: seq<Token<W>>)
    requires !WellFormed(Upto(ts))
    ensures Simple(argv, files, ts) == Panic
  {
  }

  lemma SimplePanics<W>(argv: seq<W>, files: seq<File<W>>, ts: seq<Token<W>>)
    requires ts != [] && !Stops(ts) && !ts[0].Word? && !Redirects(ts)
    ensures Simple(argv, files, ts) == Panic && ParseArgs(argv, files, ts) == Panic
  {
    BadStart(ts);
    hide Wrap;
  }

  // One round of the loop of parseexec.
  lemma ArgsRound<W>(argv: seq<W>, files: seq<File<W>>, ts: seq<Token<W>>)
    requires ts != [] && ts[0].Word?
    ensures var r := ParseRedirs(files, ts[1..]);
      ParseArgs(argv, files, ts) ==
        if |argv| + 1 >= MAXARGS || r.NoFile? then Panic else ParseArgs(argv + [ts[0].w], r.files, r.rest)
  {
    hide ParseRedirs;
  }

  /** A simple command, with redirections anywhere among its words: its arguments are exactly the words that do
      not follow a redirection symbol, its files those that do, in order; it panics exactly if a symbol lacks
      its file, a parenthesis turns up, or there are MAXARGS arguments. */
  lemma SimpleExactly<W>(ts: seq<Token<W>>)
    requires ts == [] || !ts[0].Open?
    ensures ParseExec(ts) == Simple([], [], ts)
  {
    hide Wrap, ParseRedirs, ParseArgs, ParseBlock, Simple, Takes;
    var used := RedirsExactly([], ts);
    var r := ParseRedirs([], ts);
    if r.NoFile? {
      NotFormed([], [], ts);
    } else {
      ArgsExactly([], r.files, r.rest);
      SimpleTaken([], [], ts, used, r.rest);
    }
  }

  // ---------- parsing undoes printing ----------

  function PrintFiles<W>(files: seq<File<W>>): seq<Token<W>> {
    if files == [] then [] else PrintFile(files[0]) + PrintFiles(files[1..])
  }

  lemma {:induction false} RedirsUndo<W>(done: seq<File<W>>, files: seq<File<W>>, k: seq<Token<W>>)
    requires !Redirects(k)
    ensures ParseRedirs(done, PrintFiles(files) + k) == Files(done + files, k)
    decreases |files|
  {
    if files == [] {
      assert PrintFiles(files) + k == k && done + files == done;
    } else {
      var ts := PrintFiles(files) + k;
      assert ts[2..] == PrintFiles(files[1..]) + k;
      assert ts[0] == PrintFile(files[0])[0] && ts[1] == Word(files[0].name);
      RedirsUndo(done + [files[0]], files[1..], k);
      assert done + [files[0]] + files[1..] == done + files;
    }
  }

  // k ends a command.
  predicate Ends<W>(k: seq<Token<W>>) {
    k == [] || Stops(k)
  }

  // One round of the loops.
  lemma ArgsStep<W>(argv: seq<W>, files: seq<File<W>>, ts: seq<Token<W>>, files': seq<File<W>>, rest: seq<Token<W>>)
    requires ts != [] && ts[0].Word? && |argv| + 1 < MAXARGS && ParseRedirs(files, ts[1..]) == Files(files', rest)
    ensures ParseArgs(argv, files, ts) == ParseArgs(argv + [ts[0].w], files', rest)
  {
  }

  lemma ArgsEnd<W>(argv: seq<W>, files: seq<File<W>>, k: seq<Token<W>>)
    requires Ends(k)
    ensures ParseArgs(argv, files, k) == Ok(Wrap(Exec(argv), files), k)
  {
  }

  lemma NoRedirs<W>(files: seq<File<W>>, ts: seq<Token<W>>)
    requires !Redirects(ts)
    ensures ParseRedirs(files, ts) == Files(files, ts)
  {
  }

  lemma {:induction false} ArgsUndo<W>(argv: seq<W>, done: seq<File<W>>, ws: seq<W>, files: seq<File<W>>, k: seq<Token<W>>)
    requires Ends(k) && |argv| + |ws| < MAXARGS && ws != []
    ensures ParseArgs(argv, done, Words(ws) + PrintFiles(files) + k) == Ok(Wrap(Exec(argv + ws), done + files), k)
    decreases |ws|
  {
    hide ParseArgs, ParseRedirs, Wrap, PrintFiles;
    var ts := Words(ws) + PrintFiles(files) + k;
    var rest := Words(ws[1..]) + PrintFiles(files) + k;
    assert ts[0] == Word(ws[0]) && ts[1..] == rest;
    assert argv + [ws[0]] + ws[1..] == argv + ws;
    if |ws| == 1 {
      assert rest == PrintFiles(files) + k;
      RedirsUndo(done, files, k);
      ArgsStep(argv, done, ts, done + files, k);
      ArgsEnd(argv + [ws[0]], done + files, k);
      assert argv + [ws[0]] == argv + ws;
    } else {
      assert rest[0] == Word(ws[1]);
      NoRedirs(done, rest);
      ArgsStep(argv, done, ts, done, rest);
      ArgsUndo(argv + [ws[0]], done, ws[1..], files, k);
    }
  }

  lemma ExecStep<W>(ts: seq<Token<W>>, files: seq<File<W>>, rest: seq<Token<W>>)
    requires (ts == [] || !ts[0].Open?) && ParseRedirs([], ts) == Files(files, rest)
    ensures ParseExec(ts) == ParseArgs([], files, rest)
  {
    hide ParseArgs, ParseBlock;
  }

  // A simple command with its redirections.
  lemma SimpleUndo<W>(argv: seq<W>, files: seq<File<W>>, k: seq<Token<W>>)
    requires Ends(k) && |argv| < MAXARGS
    ensures ParseExec(Words(argv) + PrintFiles(files) + k) == Ok(Wrap(Exec(argv), files), k)
  {
    hide ParseExec, ParseArgs, ParseRedirs, Wrap;
    var ts := Words(argv) + PrintFiles(files) + k;
    if argv == [] {
      assert ts == PrintFiles(files) + k;
      RedirsUndo([], files, k);
      assert [] + files == files;
      assert files != [] ==> ts[0] == PrintFile(files[0])[0];
      ExecStep(ts, files, k);
      ArgsEnd([], files, k);
    } else {
      assert ts[0] == Word(argv[0]);
      NoRedirs([], ts);
      ExecStep(ts, [], ts);
      ArgsUndo([], [], argv, files, k);
      assert [] + argv == argv && [] + files == files;
    }
  }

  function Base<W>(c: Cmd<W>): Cmd<W> {
    if c.Redir? then Base(c.cmd) else c
  }

  function FilesOf<W>(c: Cmd<W>): seq<File<W>> {
    if c.Redir? then FilesOf(c.cmd) + [File(c.file, c.out)] else []
  }

  lemma {:induction false} PrintFilesLast<W>(files: seq<File<W>>, f: File<W>)
    ensures PrintFiles(files + [f]) == PrintFiles(files) + PrintFile(f)
  {
    if files == [] {
      assert files + [f] == [f] && [f][1..] == [];
    } else {
      PrintFilesLast(files[1..], f);
      assert (files + [f])[1..] == files[1..] + [f];
    }
  }

  lemma {:induction false} SplitRedirs<W>(c: Cmd<W>)
    ensures c == Wrap(Base(c), FilesOf(c)) && !Base(c).Redir?
    ensures PrintExec(c) == PrintExec(Base(c)) + PrintFiles(FilesOf(c))
    ensures Printable(c) ==> Printable(Base(c))
    ensures Base(c) == c || Base(c) < c
  {
    if c.Redir? {
      SplitRedirs(c.cmd);
      var fs := FilesOf(c.cmd);
      assert (fs + [File(c.file, c.out)])[..|fs|] == fs;
      PrintFilesLast(fs, File(c.file, c.out));
    }
  }

  lemma {:induction false} BlockUndo<W>(c: Cmd<W>, files: seq<File<W>>, k: seq<Token<W>>)
    requires Ends(k) && Printable(c) && !c.Exec? && !c.Redir?
    ensures ParseExec([Open] + PrintLine(c) + [Close] + PrintFiles(files) + k) == Ok(Wrap(c, files), k)
    decreases c, if c.List? then 1 else if c.Back? then 2 else 3
  {
    hide PrintLine, PrintFiles, Wrap, ParseLine, ParseRedirs, ParseArgs;
    var ts := [Open] + PrintLine(c) + [Close] + PrintFiles(files) + k;
    var after := PrintFiles(files) + k;
    assert ts[1..] == PrintLine(c) + ([Close] + after);
    LineUndo(c, [Close] + after);
    assert ([Close] + after)[1..] == after;
    RedirsUndo([], files, k);
    assert [] + files == files;
  }

  lemma {:induction false} ExecUndo<W>(c: Cmd<W>, k: seq<Token<W>>)
    requires Ends(k) && Printable(c)
    ensures ParseExec(PrintExec(c) + k) == Ok(c, k)
    decreases c, if c.List? then 2 else if c.Back? then 3 else if c.Pipe? then 4 else 1
  {
    SplitRedirs(c);
    var b, files := Base(c), FilesOf(c);
    if b.Exec? {
      SimpleUndo(b.argv, files, k);
    } else {
      BlockUndo(b, files, k);
      assert PrintExec(b) == [Open] + PrintLine(b) + [Close];
    }
  }

  // Like Ends, but the next token is not a bar.
  predicate EndsPipe<W>(k: seq<Token<W>>) {
    Ends(k) && (k != [] ==> !k[0].Bar?)
  }

  lemma {:induction false} PipeUndo<W>(c: Cmd<W>, k: seq<Token<W>>)
    requires EndsPipe(k) && Printable(c)
    ensures ParsePipe(PrintPipe(c) + k) == Ok(c, k)
    decreases c, if c.List? then 3 else if c.Back? then 4 else if c.Pipe? then 0 else 2
  {
    if c.Pipe? {
      var after := [Bar] + (PrintPipe(c.right) + k);
      assert PrintPipe(c) + k == PrintExec(c.left) + after;
      ExecUndo(c.left, after);
      assert after[1..] == PrintPipe(c.right) + k;
      PipeUndo(c.right, k);
    } else {
      ExecUndo(c, k);
    }
  }

  // Trailing ampersands wrap what the pipe parser returned, up to c itself.
  lemma {:induction false} BackUndo<W>(c: Cmd<W>, k: seq<Token<W>>)
    requires EndsPipe(k) && Printable(c)
    ensures var r := ParsePipe(PrintBack(c) + k); r.Ok? && ParseBacks(r.cmd, r.rest) == ParseBacks(c, k)
    decreases c, if c.List? then 4 else if c.Back? then 0 else if c.Pipe? then 1 else 3
  {
    if c.Back? {
      assert PrintBack(c) + k == PrintBack(c.cmd) + ([Amp] + k);
      BackUndo(c.cmd, [Amp] + k);
      assert ([Amp] + k)[1..] == k;
    } else {
      PipeUndo(c, k);
    }
  }

  lemma {:induction false} LineUndo<W>(c: Cmd<W>, k: seq<Token<W>>)
    requires (k == [] || k[0].Close?) && Printable(c)
    ensures ParseLine(PrintLine(c) + k) == Ok(c, k)
    decreases c, if c.List? then 0 else if c.Back? then 1 else if c.Pipe? then 2 else 4
  {
    if c.List? {
      var after := [Semi] + (PrintLine(c.right) + k);
      assert PrintLine(c) + k == PrintBack(c.left) + after;
      BackUndo(c.left, after);
      assert after[1..] == PrintLine(c.right) + k;
      LineUndo(c.right, k);
    } else {
      BackUndo(c, k);
    }
  }

  /** Printing a command and parsing it gives the command back, with nothing left over. */
  lemma PrintParse<W>(c: Cmd<W>)
    requires Printable(c)
    ensures ParseLine(PrintLine(c)) == Ok(c, [])
  {
    LineUndo(c, []);
    assert PrintLine(c) + [] == PrintLine(c);
  }

  // ---------- the parentheses are needed ----------

  lemma {:induction false} WrapBase<W>(c: Cmd<W>, files: seq<File<W>>)
    ensures Base(Wrap(c, files)) == Base(c)
  {
    if files != [] { WrapBase(c, files[..|files| - 1]); }
  }

  lemma {:induction false} ArgsBase<W>(argv: seq<W>, files: seq<File<W>>, ts: seq<Token<W>>)
    ensures var r := ParseArgs(argv, files, ts); r.Ok? ==> Base(r.cmd).Exec?
    decreases |ts|
  {
    if ts == [] || Stops(ts) {
      WrapBase(Exec(argv), files);
    } else if ts[0].Word? && |argv| + 1 < MAXARGS {
      var fs := ParseRedirs(files, ts[1..]);
      if fs.Files? { ArgsBase(argv + [ts[0].w], fs.files, fs.rest); }
    }
  }

  /** Wherever the printer puts parentheses the parser cannot do without: a pipe, list or background
      command in the place of a simple one, and a list or background command in the place of a pipe,
      are only read after an opening parenthesis. */
  lemma ParensNeeded<W>(ts: seq<Token<W>>)
    ensures var r := ParseExec(ts); r.Ok? && !Base(r.cmd).Exec? ==> ts != [] && ts[0].Open?
    ensures var r := ParsePipe(ts); r.Ok? && (r.cmd.List? || r.cmd.Back?) ==> ts != [] && ts[0].Open?
  {
    if ts == [] || !ts[0].Open? {
      var fs := ParseRedirs([], ts);
      if fs.Files? { ArgsBase([], fs.files, fs.rest); }
    }
  }

  // ---------- every parse is printable ----------

  lemma {:induction false} WrapPrintable<W>(c: Cmd<W>, files: seq<File<W>>)
    requires Printable(c)
    ensures Printable(Wrap(c, files))
  {
    if files != [] { WrapPrintable(c, files[..|files| - 1]); }
  }

  lemma {:induction false} ArgsPrintable<W>(argv: seq<W>, files: seq<File<W>>, ts: seq<Token<W>>)
    requires |argv| < MAXARGS
    ensures var r := ParseArgs(argv, files, ts); r.Ok? ==> Printable(r.cmd)
    decreases |ts|
  {
    if ts == [] || Stops(ts) {
      WrapPrintable(Exec(argv), files);
    } else if ts[0].Word? && |argv| + 1 < MAXARGS {
      var fs := ParseRedirs(files, ts[1..]);
      if fs.Files? { ArgsPrintable(argv + [ts[0].w], fs.files, fs.rest); }
    }
  }

  lemma {:induction false} BacksPrintable<W>(c: Cmd<W>, ts: seq<Token<W>>)
    requires Printable(c)
    ensures Printable(ParseBacks(c, ts).0)
    decreases |ts|
  {
    if ts != [] && ts[0].Amp? { BacksPrintable(Back(c), ts[1..]); }
  }

  lemma {:induction false} ExecPrintable<W>(ts: seq<Token<W>>)
    ensures var r := ParseExec(ts); r.Ok? ==> Printable(r.cmd)
    decreases |ts|, 1
  {
    if ts != [] && ts[0].Open? {
      LinePrintable(ts[1..]);
      var r := ParseLine(ts[1..]);
      if r.Ok? && r.rest != [] && r.rest[0].Close? {
        var fs := ParseRedirs([], r.rest[1..]);
        if fs.Files? { WrapPrintable(r.cmd, fs.files); }
      }
    } else {
      var fs := ParseRedirs([], ts);
      if fs.Files? { ArgsPrintable([], fs.files, fs.rest); }
    }
  }

  lemma {:induction false} PipePrintable<W>(ts: seq<Token<W>>)
    ensures var r := ParsePipe(ts); r.Ok? ==> Printable(r.cmd)
    decreases |ts|, 2
  {
    ExecPrintable(ts);
    var r := ParseExec(ts);
    if r.Ok? && r.rest != [] && r.rest[0].Bar? { PipePrintable(r.rest[1..]); }
  }

  /** Every command that the parser returns is one the printer can print, so parsing its print gives
      the same command again. */
  lemma {:induction false} LinePrintable<W>(ts: seq<Token<W>>)
    ensures var r := ParseLine(ts); r.Ok? ==> Printable(r.cmd) && ParseLine(PrintLine(r.cmd)) == Ok(r.cmd, [])
    decreases |ts|, 3
  {
    PipePrintable(ts);
    var r := ParsePipe(ts);
    if r.Ok? {
      BacksPrintable(r.cmd, r.rest);
      var rest := ParseBacks(r.cmd, r.rest).1;
      if rest != [] && rest[0].Semi? { LinePrintable(rest[1..]); }
    }
    if ParseLine(ts).Ok? { PrintParse(ParseLine(ts).cmd); }
  }

  // ---------- the parser does not look into words ----------

  function MapToken<W, V>(f: W -> V, t: Token<W>): Token<V> {
    match t
    case Bar => Bar case Open => Open case Close => Close case Semi => Semi
    case Amp => Amp case Lt => Lt case Gt => Gt case GtGt => GtGt
    case Word(w) => Word(f(w))
  }

  function MapTokens<W, V>(f: W -> V, ts: seq<Token<W>>): (r: seq<Token<V>>)
    ensures |r| == |ts|
  {
    seq(|ts|, i requires 0 <= i < |ts| => MapToken(f, ts[i]))
  }

  function MapWords<W, V>(f: W -> V, ws: seq<W>): (r: seq<V>)
    ensures |r| == |ws|
  {
    seq(|ws|, i requires 0 <= i < |ws| => f(ws[i]))
  }

  function MapFiles<W, V>(f: W -> V, files: seq<File<W>>): (r: seq<File<V>>)
    ensures |r| == |files|
  {
    seq(|files|, i requires 0 <= i < |files| => File(f(files[i].name), files[i].out))
  }

  function MapCmd<W, V>(f: W -> V, c: Cmd<W>): Cmd<V> {
    match c
    case Exec(argv) => Exec(MapWords(f, argv))
    case Redir(x, w, out) => Redir(MapCmd(f, x), f(w), out)
    case Pipe(l, r) => Pipe(MapCmd(f, l), MapCmd(f, r))
    case List(l, r) => List(MapCmd(f, l), MapCmd(f, r))
    case Back(x) => Back(MapCmd(f, x))
  }

  function MapResult<W, V>(f: W -> V, r: Result<W>): Result<V> {
    if r.Panic? then Panic else Ok(MapCmd(f, r.cmd), MapTokens(f, r.rest))
  }

  lemma MapDrop<W, V>(f: W -> V, ts: seq<Token<W>>, n: nat)
    requires n <= |ts|
    ensures MapTokens(f, ts)[n..] == MapTokens(f, ts[n..])
    ensures ts != [] ==> MapTokens(f, ts)[0] == MapToken(f, ts[0])
    ensures |ts| > 1 ==> MapTokens(f, ts)[1] == MapToken(f, ts[1])
  {
  }

  lemma {:induction false} RedirsMap<W, V>(f: W -> V, done: seq<File<W>>, ts: seq<Token<W>>)
    ensures var r := ParseRedirs(done, ts);
      ParseRedirs(MapFiles(f, done), MapTokens(f, ts))
        == if r.NoFile? then NoFile else Files(MapFiles(f, r.files), MapTokens(f, r.rest))
    decreases |ts|
  {
    MapDrop(f, ts, 0);
    if Redirects(ts) && |ts| > 1 && ts[1].Word? {
      MapDrop(f, ts, 2);
      var file := File(ts[1].w, !ts[0].Lt?);
      assert MapFiles(f, done + [file]) == MapFiles(f, done) + [File(f(file.name), file.out)];
      RedirsMap(f, done + [file], ts[2..]);
    }
  }

  lemma {:induction false} WrapMap<W, V>(f: W -> V, c: Cmd<W>, files: seq<File<W>>)
    ensures MapCmd(f, Wrap(c, files)) == Wrap(MapCmd(f, c), MapFiles(f, files))
  {
    if files != [] {
      var n := |files| - 1;
      WrapMap(f, c, files[..n]);
      assert MapFiles(f, files)[..n] == MapFiles(f, files[..n]);
    }
  }

  lemma {:induction false} ArgsMap<W, V>(f: W -> V, argv: seq<W>, files: seq<File<W>>, ts: seq<Token<W>>)
    ensures ParseArgs(MapWords(f, argv), MapFiles(f, files), MapTokens(f, ts)) == MapResult(f, ParseArgs(argv, files, ts))
    decreases |ts|
  {
    MapDrop(f, ts, 0);
    if ts == [] || Stops(ts) {
      WrapMap(f, Exec(argv), files);
    } else if ts[0].Word? && |argv| + 1 < MAXARGS {
      MapDrop(f, ts, 1);
      RedirsMap(f, files, ts[1..]);
      var fs := ParseRedirs(files, ts[1..]);
      assert MapWords(f, argv + [ts[0].w]) == MapWords(f, argv) + [f(ts[0].w)];
      if fs.Files? { ArgsMap(f, argv + [ts[0].w], fs.files, fs.rest); }
    }
  }

  lemma NoFilesMap<W, V>(f: W -> V)
    ensures MapFiles(f, []) == [] && MapWords(f, []) == []
  {
  }

  lemma {:induction false} BlockMap<W, V>(f: W -> V, ts: seq<Token<W>>)
    requires ts != [] && ts[0].Open?
    ensures MapTokens(f, ts)[0].Open? && ParseBlock(MapTokens(f, ts)) == MapResult(f, ParseBlock(ts))
    decreases |ts|, 0
  {
    hide ParseLine, ParseRedirs, Wrap, MapCmd;
    MapDrop(f, ts, 1);
    LineMap(f, ts[1..]);
    var r := ParseLine(ts[1..]);
    if r.Ok? && r.rest != [] && r.rest[0].Close? {
      MapDrop(f, r.rest, 1);
      NoFilesMap(f);
      RedirsMap(f, [], r.rest[1..]);
      var fs := ParseRedirs([], r.rest[1..]);
      if fs.Files? { WrapMap(f, r.cmd, fs.files); }
    }
  }

  lemma {:induction false} ExecMap<W, V>(f: W -> V, ts: seq<Token<W>>)
    ensures ParseExec(MapTokens(f, ts)) == MapResult(f, ParseExec(ts))
    decreases |ts|, 1
  {
    MapDrop(f, ts, 0);
    if ts != [] && ts[0].Open? {
      BlockMap(f, ts);
    } else {
      NoFilesMap(f);
      RedirsMap(f, [], ts);
      var fs := ParseRedirs([], ts);
      if fs.Files? { ArgsMap(f, [], fs.files, fs.rest); }
    }
  }

  lemma {:induction false} PipeMap<W, V>(f: W -> V, ts: seq<Token<W>>)
    ensures ParsePipe(MapTokens(f, ts)) == MapResult(f, ParsePipe(ts))
    decreases |ts|, 2
  {
    ExecMap(f, ts);
    var r := ParseExec(ts);
    if r.Ok? && r.rest != [] {
      MapDrop(f, r.rest, 1);
      if r.rest[0].Bar? { PipeMap(f, r.rest[1..]); }
    }
  }

  lemma {:induction false} BacksMap<W, V>(f: W -> V, c: Cmd<W>, ts: seq<Token<W>>)
    ensures var r := ParseBacks(c, ts); ParseBacks(MapCmd(f, c), MapTokens(f, ts)) == (MapCmd(f, r.0), MapTokens(f, r.1))
    decreases |ts|
  {
    if ts != [] {
      MapDrop(f, ts, 1);
      if ts[0].Amp? { BacksMap(f, Back(c), ts[1..]); }
    }
  }

  /** Renaming the words of the input renames the words of the command and nothing else. */
  lemma {:induction false} LineMap<W, V>(f: W -> V, ts: seq<Token<W>>)
    ensures ParseLine(MapTokens(f, ts)) == MapResult(f, ParseLine(ts))
    decreases |ts|, 3
  {
    hide ParsePipe, ParseBacks;
    PipeMap(f, ts);
    var r := ParsePipe(ts);
    if r.Ok? {
      BacksMap(f, r.cmd, r.rest);
      var rest := ParseBacks(r.cmd, r.rest).1;
      if rest != [] {
        MapDrop(f, rest, 1);
        if rest[0].Semi? { LineMap(f, rest[1..]); }
      }
    }
  }
}
