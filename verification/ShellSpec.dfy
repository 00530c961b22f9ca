/**
  The command language of sh.c: its parser as functions on what is left of the line, and a printer
  whose output it reads back.
 */
module ShellSpec {
  const MAXARGS: int := 10

  // out is a redirection of output; the parser makes no difference between > and >>.
  datatype Redir = Redir(file: string, out: bool)

  datatype Cmd =
    | Exec(args: seq<string>)
    | Redirected(cmd: Cmd, redir: Redir)
    | Pipe(left: Cmd, right: Cmd)
    | List(left: Cmd, right: Cmd)
    | Back(cmd: Cmd)

  datatype Panic = Syntax | MissingFile | TooManyArgs | MissingParen | NoBlock | Leftovers

  datatype Result<T> = Ok(value: T, rest: string) | Err(panic: Panic)

  // ---------- tokens ----------

  predicate IsSpace(c: char)
  {
    c == ' ' || c == '\t' || c == '\r' || c == '\n' || c == '\U{000B}'
  }

  predicate IsSymbol(c: char)
  {
    c == '<' || c == '|' || c == '>' || c == '&' || c == ';' || c == '(' || c == ')'
  }

  predicate IsWordChar(c: char)
  {
    !IsSpace(c) && !IsSymbol(c)
  }

  function Skip(s: string): (r: string)
    ensures |r| <= |s| && (r == "" || !IsSpace(r[0]))
  {
    if s != "" && IsSpace(s[0]) then Skip(s[1..]) else s
  }

  // The length of the word s starts with.
  function WordLength(s: string): (k: nat)
    ensures k <= |s|
  {
    if s != "" && IsWordChar(s[0]) then 1 + WordLength(s[1..]) else 0
  }

  datatype Token = End | Symbol(c: char) | Append | Word(w: string)

  function FirstToken(s: string): Token
  {
    if s == "" then End
    else if s[0] == '>' && |s| >= 2 && s[1] == '>' then Append
    else if IsSymbol(s[0]) then Symbol(s[0])
    else Word(s[..WordLength(s)])
  }

  function TokenLength(s: string): (k: nat)
    ensures k <= |s|
  {
    match FirstToken(s)
    case End => 0
    case Symbol(_) => 1
    case Append => 2
    case Word(w) => WordLength(s)
  }

  // gettoken: the next token, and what follows it and the white space after it.
  function NextToken(s: string): Token
  {
    FirstToken(Skip(s))
  }

  function AfterToken(s: string): (r: string)
    ensures |r| <= |s|
    ensures !NextToken(s).End? ==> |r| < |s|
  {
    var t := Skip(s);
    Skip(t[TokenLength(t)..])
  }

  predicate Peek(s: string, toks: string)
  {
    Skip(s) != "" && Skip(s)[0] in toks
  }

  // ---------- the grammar ----------

  function Wrap(c: Cmd, rs: seq<Redir>): Cmd
  {
    if rs == [] then c else Redirected(Wrap(c, rs[..|rs| - 1]), rs[|rs| - 1])
  }

  function ParseRedirs(rs: seq<Redir>, s: string): (r: Result<seq<Redir>>)
    ensures r.Ok? ==> |r.rest| <= |s|
    decreases |s|
  {
    if !Peek(s, "<>") then Ok(rs, Skip(s))
    else
      var after := AfterToken(s);
      if !NextToken(after).Word? then Err(MissingFile)
      else ParseRedirs(rs + [Redir(NextToken(after).w, NextToken(s) != Symbol('<'))], AfterToken(after))
  }

  function ParseArgs(args: seq<string>, rs: seq<Redir>, s: string): (r: Result<Cmd>)
    ensures r.Ok? ==> |r.rest| <= |s|
    decreases |s|
  {
    if Peek(s, "|)&;") || NextToken(s).End? then Ok(Wrap(Exec(args), rs), Skip(s))
    else if !NextToken(s).Word? then Err(Syntax)
    else if |args| + 1 >= MAXARGS then Err(TooManyArgs)
    else
      match ParseRedirs(rs, AfterToken(s))
      case Err(p) => Err(p)
      case Ok(rs', rest) => ParseArgs(args + [NextToken(s).w], rs', rest)
  }

  function ParseExec(s: string): (r: Result<Cmd>)
    ensures r.Ok? ==> |r.rest| <= |s|
    decreases |s|, 1
  {
    if Peek(s, "(") then ParseBlock(Skip(s))
    else
      match ParseRedirs([], s)
      case Err(p) => Err(p)
      case Ok(rs, rest) => ParseArgs([], rs, rest)
  }

  function ParseBlock(s: string): (r: Result<Cmd>)
    ensures r.Ok? ==> |r.rest| <= |s|
    decreases |s|, 0
  {
    if !Peek(s, "(") then Err(NoBlock)
    else
      match ParseLine(AfterToken(s))
      case Err(p) => Err(p)
      case Ok(c, rest) =>
        if !Peek(rest, ")") then Err(MissingParen)
        else
          match ParseRedirs([], AfterToken(rest))
          case Err(p) => Err(p)
          case Ok(rs, rest') => Ok(Wrap(c, rs), rest')
  }

  function ParsePipe(s: string): (r: Result<Cmd>)
    ensures r.Ok? ==> |r.rest| <= |s|
    decreases |s|, 2
  {
    match ParseExec(s)
    case Err(p) => Err(p)
    case Ok(c, rest) =>
      if !Peek(rest, "|") then Ok(c, Skip(rest))
      else
        match ParsePipe(AfterToken(rest))
        case Err(p) => Err(p)
        case Ok(d, rest') => Ok(Pipe(c, d), rest')
  }

  function ParseBacks(c: Cmd, s: string): (r: (Cmd, string))
    ensures |r.1| <= |s|
    decreases |s|
  {
    if Peek(s, "&") then ParseBacks(Back(c), AfterToken(s)) else (c, Skip(s))
  }

  function ParseLine(s: string): (r: Result<Cmd>)
    ensures r.Ok? ==> |r.rest| <= |s|
    decreases |s|, 3
  {
    match ParsePipe(s)
    case Err(p) => Err(p)
    case Ok(c, rest) =>
      var (c', rest') := ParseBacks(c, rest);
      if !Peek(rest', ";") then Ok(c', Skip(rest'))
      else
        match ParseLine(AfterToken(rest'))
        case Err(p) => Err(p)
        case Ok(d, rest'') => Ok(List(c', d), rest'')
  }

  function ParseCmd(s: string): Result<Cmd>
  {
    match ParseLine(s)
    case Err(p) => Err(p)
    case Ok(c, rest) => if Skip(rest) == "" then Ok(c, "") else Err(Leftovers)
  }

  // ---------- printing ----------

  predicate IsWord(w: string)
  {
    w != "" && forall i :: 0 <= i < |w| ==> IsWordChar(w[i])
  }

  // Words are words, and there are at most 9 arguments.
  predicate WellFormed(c: Cmd)
  {
    match c
    case Exec(args) => |args| < MAXARGS && forall i :: 0 <= i < |args| ==> IsWord(args[i])
    case Redirected(d, r) => WellFormed(d) && IsWord(r.file)
    case Pipe(l, r) => WellFormed(l) && WellFormed(r)
    case List(l, r) => WellFormed(l) && WellFormed(r)
    case Back(d) => WellFormed(d)
  }

  function Join(args: seq<string>): string
  {
    if args == [] then "" else if |args| == 1 then args[0] else args[0] + " " + Join(args[1..])
  }

  function Print(c: Cmd): string
  {
    match c
    case Exec(args) => Join(args)
    case Redirected(d, r) => "(" + Print(d) + ")" + (if r.out then ">" else "<") + r.file
    case Pipe(l, r) => "(" + Print(l) + ")|(" + Print(r) + ")"
    case List(l, r) => "(" + Print(l) + ");(" + Print(r) + ")"
    case Back(d) => "(" + Print(d) + ")&"
  }

  // Where a printed command ends: the end of the line or a closing parenthesis.
  predicate Stop(s: string)
  {
    s == "" || s[0] == ')'
  }

  lemma SkipNone(s: string)
    requires s == "" || !IsSpace(s[0])
    ensures Skip(s) == s
  {
  }

  lemma {:induction false} WordLengthIs(w: string, s: string)
    requires (forall i :: 0 <= i < |w| ==> IsWordChar(w[i])) && (s == "" || !IsWordChar(s[0]))
    ensures WordLength(w + s) == |w|
  {
    if w == "" {
      assert w + s == s;
    } else {
      assert (w + s)[1..] == w[1..] + s;
      WordLengthIs(w[1..], s);
    }
  }

  // A word followed by something else is the next token.
  lemma WordNext(w: string, s: string)
    requires IsWord(w) && (s == "" || !IsWordChar(s[0]))
    ensures NextToken(w + s) == Word(w) && AfterToken(w + s) == Skip(s)
  {
    WordLengthIs(w, s);
    assert (w + s)[0] == w[0];
    SkipNone(w + s);
    assert (w + s)[..|w|] == w && (w + s)[|w|..] == s;
  }

  lemma SymbolNext(c: char, s: string)
    requires IsSymbol(c) && !(c == '>' && s != "" && s[0] == '>')
    ensures NextToken([c] + s) == Symbol(c) && AfterToken([c] + s) == Skip(s) && Skip([c] + s) == [c] + s
  {
    SkipNone([c] + s);
    assert ([c] + s)[1..] == s;
  }

  // A line that starts with something other than white space.
  lemma PeekAt(s: string, toks: string)
    requires s == "" || !IsSpace(s[0])
    ensures Skip(s) == s && (Peek(s, toks) <==> s != "" && s[0] in toks)
  {
  }

  lemma PrintStart(c: Cmd, s: string)
    requires WellFormed(c) && Stop(s)
    ensures var p := Print(c) + s;
            if c.Exec? then p == "" || p[0] == ')' || IsWordChar(p[0]) else p != "" && p[0] == '('
  {
    var p := Print(c) + s;
    if c.Exec? {
      if c.args != [] {
        assert p[0] == c.args[0][0];
      } else {
        assert p == s;
      }
    } else {
      assert p[0] == '(';
    }
  }

  // No redirection follows.
  lemma NoRedirs(rs: seq<Redir>, s: string)
    requires s == "" || (!IsSpace(s[0]) && s[0] != '<' && s[0] != '>')
    ensures Skip(s) == s && ParseRedirs(rs, s) == Ok(rs, s)
  {
    PeekAt(s, "<>");
  }

  lemma OneArg(done: seq<string>, w: string, tail: string, more: string)
    requires IsWord(w) && |done| + 1 < MAXARGS && (tail == "" || !IsWordChar(tail[0])) && Skip(tail) == more
    requires more == "" || (more[0] != '<' && more[0] != '>')
    ensures ParseArgs(done, [], w + tail) == ParseArgs(done + [w], [], more)
  {
    WordNext(w, tail);
    assert (w + tail)[0] == w[0];
    PeekAt(w + tail, "|)&;");
    NoRedirs([], more);
  }

  lemma {:induction false} ArgsBack(done: seq<string>, args: seq<string>, s: string)
    requires |done| + |args| < MAXARGS && Stop(s) && forall i :: 0 <= i < |args| ==> IsWord(args[i])
    ensures ParseArgs(done, [], Join(args) + s) == Ok(Exec(done + args), s)
    decreases |args|
  {
    hide ParseArgs, ParseRedirs, Skip, Peek, NextToken, AfterToken;
    if args == [] {
      assert Join(args) + s == s && done + args == done;
      NoMoreArgs(done, s);
    } else {
      var w, more := args[0], args[1..];
      PrintStart(Exec(more), s);
      PeekAt(Join(more) + s, "");
      if |args| == 1 {
        assert Join(args) + s == w + s && Join(more) + s == s;
        OneArg(done, w, s, s);
      } else {
        assert Join(args) + s == w + (" " + (Join(more) + s));
        SkipSpace(Join(more) + s);
        OneArg(done, w, " " + (Join(more) + s), Join(more) + s);
      }
      ArgsBack(done + [w], more, s);
      assert done + [w] + more == done + args;
    }
  }

  lemma SkipSpace(s: string)
    ensures Skip(" " + s) == Skip(s)
  {
    assert (" " + s)[1..] == s;
  }

  lemma NoMoreArgs(done: seq<string>, s: string)
    requires Stop(s)
    ensures ParseArgs(done, [], s) == Ok(Exec(done), s)
  {
    PeekAt(s, "|)&;");
  }

  // ---------- one rule of the grammar at a time ----------

  lemma BlockIs(s: string, c: Cmd, tail: string, rs: seq<Redir>, rest: string)
    requires Skip(s) == s && ParseLine(s) == Ok(c, ")" + tail) && Skip(tail) == tail
             && ParseRedirs([], tail) == Ok(rs, rest)
    ensures ParseExec("(" + s) == Ok(Wrap(c, rs), rest)
  {
    hide Skip, NextToken, AfterToken, ParseLine, ParseRedirs;
    assert "(" + s == ['('] + s && ")" + tail == [')'] + tail;
    SymbolNext('(', s);
    SymbolNext(')', tail);
    PeekAt("(" + s, "(");
    PeekAt(")" + tail, ")");
  }

  lemma PipeIs(s: string, c: Cmd, rest: string)
    requires ParseExec(s) == Ok(c, rest) && (rest == "" || rest[0] == ')' || rest[0] == ';' || rest[0] == '&')
    ensures ParsePipe(s) == Ok(c, rest)
  {
    hide ParseExec;
    PeekAt(rest, "|");
  }

  lemma PipeMore(s: string, c: Cmd, more: string, d: Cmd, rest: string)
    requires ParseExec(s) == Ok(c, "|" + more) && Skip(more) == more && ParsePipe(more) == Ok(d, rest)
    ensures ParsePipe(s) == Ok(Pipe(c, d), rest)
  {
    hide ParseExec, Skip, NextToken, AfterToken;
    assert "|" + more == ['|'] + more;
    SymbolNext('|', more);
    PeekAt("|" + more, "|");
  }

  lemma LineIs(s: string, c: Cmd, rest: string)
    requires ParsePipe(s) == Ok(c, rest) && Stop(rest)
    ensures ParseLine(s) == Ok(c, rest)
  {
    hide ParsePipe;
    PeekAt(rest, "&");
    PeekAt(rest, ";");
  }

  lemma LineBack(s: string, c: Cmd, rest: string)
    requires ParsePipe(s) == Ok(c, "&" + rest) && Stop(rest)
    ensures ParseLine(s) == Ok(Back(c), rest)
  {
    hide ParsePipe, Skip, NextToken, AfterToken;
    assert "&" + rest == ['&'] + rest;
    SymbolNext('&', rest);
    PeekAt("&" + rest, "&");
    PeekAt(rest, "&");
    PeekAt(rest, ";");
    assert ParseBacks(Back(c), rest) == (Back(c), rest);
    assert ParseBacks(c, "&" + rest) == (Back(c), rest);
  }

  lemma LineMore(s: string, c: Cmd, more: string, d: Cmd, rest: string)
    requires ParsePipe(s) == Ok(c, ";" + more) && Skip(more) == more && ParseLine(more) == Ok(d, rest)
    ensures ParseLine(s) == Ok(List(c, d), rest)
  {
    hide ParsePipe, Skip, NextToken, AfterToken;
    assert ";" + more == [';'] + more;
    SymbolNext(';', more);
    PeekAt(";" + more, "&");
    PeekAt(";" + more, ";");
    assert ParseBacks(c, ";" + more) == (c, ";" + more);
  }

  lemma RedirBack(r: Redir, s: string)
    requires IsWord(r.file) && Stop(s)
    ensures var tail := [if r.out then '>' else '<'] + (r.file + s);
            Skip(tail) == tail && ParseRedirs([], tail) == Ok([r], s)
  {
    hide Skip, NextToken, AfterToken;
    var op := if r.out then '>' else '<';
    var tail := [op] + (r.file + s);
    assert (r.file + s)[0] == r.file[0];
    SymbolNext(op, r.file + s);
    PeekAt(r.file + s, "");
    PeekAt(tail, "<>");
    WordNext(r.file, s);
    PeekAt(s, "");
    NoRedirs([r], s);
    assert [] + [r] == [r];
  }

  // A command in parentheses, up to what follows them, given that the command reads back.
  lemma InParens(c: Cmd, tail: string)
    requires WellFormed(c) && ParseLine(Print(c) + (")" + tail)) == Ok(c, ")" + tail)
    requires tail == "" || tail[0] == ')' || tail[0] == '|' || tail[0] == ';' || tail[0] == '&'
    ensures ParseExec("(" + Print(c) + ")" + tail) == Ok(c, tail)
  {
    hide ParseLine, ParseExec, ParseRedirs, Skip, Print;
    var s := Print(c) + (")" + tail);
    PrintStart(c, ")" + tail);
    PeekAt(s, "");
    NoRedirs([], tail);
    BlockIs(s, c, tail, [], tail);
    assert "(" + Print(c) + ")" + tail == "(" + s;
  }

  // ---------- the round trip ----------

  // Reading back what was printed, up to a closing parenthesis or the end.
  lemma {:induction false} ReadBack(c: Cmd, s: string)
    requires WellFormed(c) && Stop(s)
    ensures ParseLine(Print(c) + s) == Ok(c, s)
    decreases c
  {
    hide ParseLine, ParsePipe, ParseExec, ParseRedirs, ParseArgs, ParseBlock, Skip, Peek;
    match c
    case Exec(args) => ReadExec(args, s);
    case Redirected(d, r) =>
      var tail := [if r.out then '>' else '<'] + (r.file + s);
      ReadBack(d, ")" + tail);
      ReadRedirected(d, r, s);
    case Pipe(l, r) =>
      ReadBack(l, ")" + ("|" + ("(" + Print(r) + ")" + s)));
      ReadBack(r, ")" + s);
      ReadPipe(l, r, s);
    case List(l, r) =>
      ReadBack(l, ")" + (";" + ("(" + Print(r) + ")" + s)));
      ReadBack(r, ")" + s);
      ReadList(l, r, s);
    case Back(d) =>
      ReadBack(d, ")" + ("&" + s));
      ReadInBack(d, s);
  }

  lemma ReadInBack(d: Cmd, s: string)
    requires WellFormed(d) && Stop(s) && ParseLine(Print(d) + (")" + ("&" + s))) == Ok(d, ")" + ("&" + s))
    ensures ParseLine(Print(Back(d)) + s) == Ok(Back(d), s)
  {
    hide ParseLine, ParsePipe, ParseExec, Skip, Peek, WellFormed;
    var p := Print(Back(d)) + s;
    InParens(d, "&" + s);
    assert p == "(" + Print(d) + ")" + ("&" + s);
    PipeIs(p, d, "&" + s);
    LineBack(p, d, s);
  }

  lemma ReadPipe(l: Cmd, r: Cmd, s: string)
    requires WellFormed(l) && WellFormed(r) && Stop(s)
    requires var more := "(" + Print(r) + ")" + s;
             ParseLine(Print(l) + (")" + ("|" + more))) == Ok(l, ")" + ("|" + more))
    requires ParseLine(Print(r) + (")" + s)) == Ok(r, ")" + s)
    ensures ParseLine(Print(Pipe(l, r)) + s) == Ok(Pipe(l, r), s)
  {
    hide ParseLine, ParsePipe, ParseExec, Skip, Peek, WellFormed;
    var more, p := "(" + Print(r) + ")" + s, Print(Pipe(l, r)) + s;
    InParens(l, "|" + more);
    InParens(r, s);
    PipeIs(more, r, s);
    PeekAt(more, "");
    assert p == "(" + Print(l) + ")" + ("|" + more);
    PipeMore(p, l, more, r, s);
    LineIs(p, Pipe(l, r), s);
  }

  lemma ReadList(l: Cmd, r: Cmd, s: string)
    requires WellFormed(l) && WellFormed(r) && Stop(s)
    requires var more := "(" + Print(r) + ")" + s;
             ParseLine(Print(l) + (")" + (";" + more))) == Ok(l, ")" + (";" + more))
    requires ParseLine(Print(r) + (")" + s)) == Ok(r, ")" + s)
    ensures ParseLine(Print(List(l, r)) + s) == Ok(List(l, r), s)
  {
    hide ParseLine, ParsePipe, ParseExec, Skip, Peek, WellFormed;
    var more, p := "(" + Print(r) + ")" + s, Print(List(l, r)) + s;
    InParens(l, ";" + more);
    InParens(r, s);
    PipeIs(more, r, s);
    LineIs(more, r, s);
    PeekAt(more, "");
    assert p == "(" + Print(l) + ")" + (";" + more);
    PipeIs(p, l, ";" + more);
    LineMore(p, l, more, r, s);
  }

  lemma ReadExec(args: seq<string>, s: string)
    requires WellFormed(Exec(args)) && Stop(s)
    ensures ParseLine(Join(args) + s) == Ok(Exec(args), s)
  {
    hide ParseLine, ParsePipe, ParseArgs, ParseRedirs, Skip, Peek;
    PrintStart(Exec(args), s);
    var p := Join(args) + s;
    PeekAt(p, "(");
    NoRedirs([], p);
    ArgsBack([], args, s);
    assert [] + args == args;
    assert ParseExec(p) == Ok(Exec(args), s);
    PipeIs(p, Exec(args), s);
    LineIs(p, Exec(args), s);
  }

  lemma ReadRedirected(d: Cmd, r: Redir, s: string)
    requires WellFormed(d) && IsWord(r.file) && Stop(s)
    requires var tail := [if r.out then '>' else '<'] + (r.file + s);
             ParseLine(Print(d) + (")" + tail)) == Ok(d, ")" + tail)
    ensures ParseLine(Print(Redirected(d, r)) + s) == Ok(Redirected(d, r), s)
  {
    hide ParseLine, ParsePipe, ParseExec, ParseRedirs, Skip, Peek, WellFormed;
    var tail := [if r.out then '>' else '<'] + (r.file + s);
    var p := Print(d) + (")" + tail);
    PrintStart(d, ")" + tail);
    PeekAt(p, "");
    RedirBack(r, s);
    BlockIs(p, d, tail, [r], s);
    assert Wrap(d, [r]) == Redirected(Wrap(d, []), r);
    assert Print(Redirected(d, r)) + s == "(" + p;
    PipeIs("(" + p, Redirected(d, r), s);
    LineIs("(" + p, Redirected(d, r), s);
  }

  // Parsing the printed form of a command gives back that command.
  lemma RoundTrip(c: Cmd)
    requires WellFormed(c)
    ensures ParseCmd(Print(c)) == Ok(c, "")
  {
    assert Print(c) + "" == Print(c);
    ReadBack(c, "");
  }

  // ---------- what the parser returns ----------

  lemma {:induction false} WordLengthWord(s: string)
    ensures forall i :: 0 <= i < WordLength(s) ==> IsWordChar(s[i])
    ensures s != "" && IsWordChar(s[0]) ==> WordLength(s) > 0
    ensures WordLength(s) < |s| ==> !IsWordChar(s[WordLength(s)])
  {
    if s != "" && IsWordChar(s[0]) {
      WordLengthWord(s[1..]);
    }
  }

  lemma TokenIsWord(s: string)
    ensures NextToken(s).Word? ==> IsWord(NextToken(s).w)
  {
    WordLengthWord(Skip(s));
  }

  predicate FilesOk(rs: seq<Redir>)
  {
    forall i :: 0 <= i < |rs| ==> IsWord(rs[i].file)
  }

  lemma {:induction false} WrapOk(c: Cmd, rs: seq<Redir>)
    requires WellFormed(c) && FilesOk(rs)
    ensures WellFormed(Wrap(c, rs))
  {
    if rs != [] {
      WrapOk(c, rs[..|rs| - 1]);
    }
  }

  lemma {:induction false} RedirsOk(rs: seq<Redir>, s: string)
    requires FilesOk(rs)
    ensures ParseRedirs(rs, s).Ok? ==> FilesOk(ParseRedirs(rs, s).value)
    decreases |s|
  {
    if Peek(s, "<>") && NextToken(AfterToken(s)).Word? {
      var after := AfterToken(s);
      TokenIsWord(after);
      RedirsOk(rs + [Redir(NextToken(after).w, NextToken(s) != Symbol('<'))], AfterToken(after));
    }
  }

  lemma {:induction false} ArgsOk(args: seq<string>, rs: seq<Redir>, s: string)
    requires WellFormed(Exec(args)) && FilesOk(rs)
    ensures ParseArgs(args, rs, s).Ok? ==> WellFormed(ParseArgs(args, rs, s).value)
    decreases |s|
  {
    if Peek(s, "|)&;") || NextToken(s).End? {
      WrapOk(Exec(args), rs);
    } else if NextToken(s).Word? && |args| + 1 < MAXARGS && ParseRedirs(rs, AfterToken(s)).Ok? {
      TokenIsWord(s);
      RedirsOk(rs, AfterToken(s));
      var r := ParseRedirs(rs, AfterToken(s));
      ArgsOk(args + [NextToken(s).w], r.value, r.rest);
    }
  }

  lemma {:induction false} ExecOk(s: string)
    ensures ParseExec(s).Ok? ==> WellFormed(ParseExec(s).value)
    decreases |s|, 1
  {
    if Peek(s, "(") {
      BlockOk(Skip(s));
    } else if ParseRedirs([], s).Ok? {
      RedirsOk([], s);
      ArgsOk([], ParseRedirs([], s).value, ParseRedirs([], s).rest);
    }
  }

  lemma {:induction false} BlockOk(s: string)
    ensures ParseBlock(s).Ok? ==> WellFormed(ParseBlock(s).value)
    decreases |s|, 0
  {
    if ParseBlock(s).Ok? {
      LineOk(AfterToken(s));
      var r := ParseLine(AfterToken(s));
      RedirsOk([], AfterToken(r.rest));
      WrapOk(r.value, ParseRedirs([], AfterToken(r.rest)).value);
    }
  }

  lemma {:induction false} PipeOk(s: string)
    ensures ParsePipe(s).Ok? ==> WellFormed(ParsePipe(s).value)
    decreases |s|, 2
  {
    ExecOk(s);
    if ParseExec(s).Ok? && Peek(ParseExec(s).rest, "|") {
      PipeOk(AfterToken(ParseExec(s).rest));
    }
  }

  lemma {:induction false} BacksOk(c: Cmd, s: string)
    requires WellFormed(c)
    ensures WellFormed(ParseBacks(c, s).0)
    decreases |s|
  {
    if Peek(s, "&") {
      BacksOk(Back(c), AfterToken(s));
    }
  }

  lemma {:induction false} LineOk(s: string)
    ensures ParseLine(s).Ok? ==> WellFormed(ParseLine(s).value)
    decreases |s|, 3
  {
    PipeOk(s);
    if ParsePipe(s).Ok? {
      BacksOk(ParsePipe(s).value, ParsePipe(s).rest);
      var (c, rest) := ParseBacks(ParsePipe(s).value, ParsePipe(s).rest);
      if Peek(rest, ";") {
        LineOk(AfterToken(rest));
      }
    }
  }

  // Every command the parser returns prints as a line that it parses to the same command.
  lemma ParsedIsPrintable(s: string)
    ensures ParseCmd(s).Ok? ==> WellFormed(ParseCmd(s).value) && ParseCmd(Print(ParseCmd(s).value)) == ParseCmd(s)
  {
    LineOk(s);
    if ParseCmd(s).Ok? {
      RoundTrip(ParseCmd(s).value);
    }
  }

  // The parser never reaches the panic of parseblock.
  lemma {:induction false} BlockReached(s: string)
    ensures ParseLine(s) != Err(NoBlock)
    decreases |s|, 3
  {
    PipeReached(s);
    if ParsePipe(s).Ok? {
      var (c, rest) := ParseBacks(ParsePipe(s).value, ParsePipe(s).rest);
      if Peek(rest, ";") {
        BlockReached(AfterToken(rest));
      }
    }
  }

  lemma {:induction false} PipeReached(s: string)
    ensures ParsePipe(s) != Err(NoBlock)
    decreases |s|, 2
  {
    ExecReached(s);
    if ParseExec(s).Ok? && Peek(ParseExec(s).rest, "|") {
      PipeReached(AfterToken(ParseExec(s).rest));
    }
  }

  lemma {:induction false} ExecReached(s: string)
    ensures ParseExec(s) != Err(NoBlock)
    decreases |s|, 1
  {
    if Peek(s, "(") {
      PeekAt(Skip(s), "(");
      BlockReached(AfterToken(Skip(s)));
      if ParseLine(AfterToken(Skip(s))).Ok? {
        RedirsReached([], AfterToken(ParseLine(AfterToken(Skip(s))).rest));
      }
    } else {
      RedirsReached([], s);
      if ParseRedirs([], s).Ok? {
        ArgsReached([], ParseRedirs([], s).value, ParseRedirs([], s).rest);
      }
    }
  }

  lemma {:induction false} RedirsReached(rs: seq<Redir>, s: string)
    ensures ParseRedirs(rs, s) != Err(NoBlock)
    decreases |s|
  {
    if Peek(s, "<>") && NextToken(AfterToken(s)).Word? {
      var after := AfterToken(s);
      RedirsReached(rs + [Redir(NextToken(after).w, NextToken(s) != Symbol('<'))], AfterToken(after));
    }
  }

  lemma {:induction false} ArgsReached(args: seq<string>, rs: seq<Redir>, s: string)
    ensures ParseArgs(args, rs, s) != Err(NoBlock)
    decreases |s|
  {
    if !(Peek(s, "|)&;") || NextToken(s).End?) && NextToken(s).Word? {
      RedirsReached(rs, AfterToken(s));
      var r := ParseRedirs(rs, AfterToken(s));
      if r.Ok? {
        ArgsReached(args + [NextToken(s).w], r.value, r.rest);
      }
    }
  }
}
