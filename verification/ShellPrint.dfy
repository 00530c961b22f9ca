/**
  Commands printed with as few parentheses as the grammar of sh.c allows: a pipe binds tighter than
  an ampersand, an ampersand tighter than a semicolon, pipes and semicolons group to the right, and
  redirections follow the words of a simple command.
 */
module ShellPrint {
  import opened ShellSpec

  function Unwrapped(c: Cmd): Cmd
  {
    if c.Redirected? then Unwrapped(c.cmd) else c
  }

  function Redirs(c: Cmd): seq<Redir>
  {
    if c.Redirected? then Redirs(c.cmd) + [c.redir] else []
  }

  function PrintRedir(r: Redir): string
  {
    [if r.out then '>' else '<'] + r.file
  }

  function PrintRedirs(rs: seq<Redir>): string
  {
    if rs == [] then "" else PrintRedir(rs[0]) + PrintRedirs(rs[1..])
  }

  // Which of the four printers below comes to an end first on c.
  function Rank(c: Cmd, level: int): int
  {
    match c
    case List(_, _) => (level + 1) % 4
    case Back(_) => (level + 2) % 4
    case Pipe(_, _) => (level + 3) % 4
    case _ => level
  }

  // Level 3, a line; 2, a command with ampersands; 1, a pipeline; 0, a simple command or a block.
  function PrintLine(c: Cmd): string
    decreases c, Rank(c, 3)
  {
    if c.List? then PrintItem(c.left) + (";" + PrintLine(c.right)) else PrintItem(c)
  }

  function PrintItem(c: Cmd): string
    decreases c, Rank(c, 2)
  {
    if c.Back? then PrintItem(c.cmd) + "&" else PrintPipe(c)
  }

  function PrintPipe(c: Cmd): string
    decreases c, Rank(c, 1)
  {
    if c.Pipe? then PrintExec(c.left) + ("|" + PrintPipe(c.right)) else PrintExec(c)
  }

  function PrintExec(c: Cmd): string
    decreases c, Rank(c, 0)
  {
    var d := Unwrapped(c);
    if d.Exec? then Join(d.args) + PrintRedirs(Redirs(c))
    else
      UnwrappedSmaller(c);
      "(" + PrintLine(d) + (")" + PrintRedirs(Redirs(c)))
  }

  lemma UnwrappedSmaller(c: Cmd)
    ensures Unwrapped(c) == c || Unwrapped(c) < c
    ensures !Unwrapped(c).Redirected?
  {
  }

  // ---------- what a printed command starts with ----------

  predicate NoSpace(x: string)
  {
    x == "" || !IsSpace(x[0])
  }

  lemma Joined(x: string, y: string)
    requires NoSpace(x) && NoSpace(y)
    ensures NoSpace(x + y) && Skip(x + y) == x + y
  {
    if x == "" {
      assert x + y == y;
    }
  }

  lemma RedirsStart(rs: seq<Redir>)
    ensures PrintRedirs(rs) == "" || PrintRedirs(rs)[0] == '<' || PrintRedirs(rs)[0] == '>'
    ensures PrintRedirs(rs) == "" <==> rs == []
  {
  }

  lemma WordsStart(args: seq<string>)
    requires WellFormed(Exec(args))
    ensures if args == [] then Join(args) == ""
            else Join(args) != "" && Join(args)[0] == args[0][0] && IsWordChar(args[0][0])
  {
  }

  lemma {:induction false} UnwrappedOk(c: Cmd)
    requires WellFormed(c)
    ensures WellFormed(Unwrapped(c)) && FilesOk(Redirs(c)) && Wrap(Unwrapped(c), Redirs(c)) == c
  {
    if c.Redirected? {
      UnwrappedOk(c.cmd);
    }
  }

  lemma {:induction false} ExecStart(c: Cmd)
    requires WellFormed(c)
    ensures NoSpace(PrintExec(c))
  {
    UnwrappedOk(c);
    if Unwrapped(c).Exec? {
      WordsStart(Unwrapped(c).args);
      RedirsStart(Redirs(c));
      Joined(Join(Unwrapped(c).args), PrintRedirs(Redirs(c)));
    }
  }

  lemma {:induction false} PipeStart(c: Cmd)
    requires WellFormed(c)
    ensures NoSpace(PrintPipe(c))
  {
    if c.Pipe? {
      ExecStart(c.left);
      Joined(PrintExec(c.left), "|" + PrintPipe(c.right));
    } else {
      ExecStart(c);
    }
  }

  lemma {:induction false} ItemStart(c: Cmd)
    requires WellFormed(c)
    ensures NoSpace(PrintItem(c))
  {
    if c.Back? {
      ItemStart(c.cmd);
      Joined(PrintItem(c.cmd), "&");
    } else {
      PipeStart(c);
    }
  }

  lemma {:induction false} LineStart(c: Cmd)
    requires WellFormed(c)
    ensures NoSpace(PrintLine(c))
  {
    if c.List? {
      ItemStart(c.left);
      Joined(PrintItem(c.left), ";" + PrintLine(c.right));
    } else {
      ItemStart(c);
    }
  }

  // ---------- simple commands and blocks ----------

  // What may follow a command: the end of the line or one of the given symbols.
  predicate Follows(f: string, symbols: string)
  {
    f == "" || f[0] in symbols
  }

  lemma OneRedir(rs: seq<Redir>, r: Redir, t: string)
    requires IsWord(r.file) && (t == "" || IsSymbol(t[0]))
    ensures ParseRedirs(rs, PrintRedir(r) + t) == ParseRedirs(rs + [r], t)
  {
    hide Skip, NextToken, AfterToken, Peek;
    var op := if r.out then '>' else '<';
    var s := PrintRedir(r) + t;
    assert s == [op] + (r.file + t);
    assert (r.file + t)[0] == r.file[0];
    SymbolNext(op, r.file + t);
    PeekAt(r.file + t, "");
    PeekAt(s, "<>");
    WordNext(r.file, t);
    PeekAt(t, "");
  }

  lemma RedirsTail(rs: seq<Redir>, f: string)
    requires Follows(f, ");&|")
    ensures var t := PrintRedirs(rs) + f; t == "" || IsSymbol(t[0])
  {
    RedirsStart(rs);
    if rs == [] {
      assert PrintRedirs(rs) + f == f;
    }
  }

  lemma {:induction false} RedirsBack(done: seq<Redir>, rs: seq<Redir>, f: string)
    requires FilesOk(rs) && Follows(f, ");&|")
    ensures ParseRedirs(done, PrintRedirs(rs) + f) == Ok(done + rs, f)
    decreases |rs|
  {
    hide ParseRedirs, PrintRedir;
    if rs == [] {
      assert PrintRedirs(rs) + f == f && done + rs == done;
      NoRedirs(done, f);
    } else {
      var t := PrintRedirs(rs[1..]) + f;
      RedirsTail(rs[1..], f);
      assert PrintRedirs(rs) + f == PrintRedir(rs[0]) + t;
      OneRedir(done, rs[0], t);
      RedirsBack(done + [rs[0]], rs[1..], f);
      assert done + [rs[0]] + rs[1..] == done + rs;
    }
  }

  lemma ArgsEnd(args: seq<string>, rs: seq<Redir>, f: string)
    requires Follows(f, ");&|")
    ensures ParseArgs(args, rs, f) == Ok(Wrap(Exec(args), rs), f)
  {
    PeekAt(f, "|)&;");
  }

  lemma LastArg(done: seq<string>, w: string, rs: seq<Redir>, f: string)
    requires IsWord(w) && |done| + 1 < MAXARGS && FilesOk(rs) && Follows(f, ");&|")
    ensures ParseArgs(done, [], w + (PrintRedirs(rs) + f)) == Ok(Wrap(Exec(done + [w]), rs), f)
  {
    hide Skip, NextToken, AfterToken, Peek, ParseRedirs, PrintRedirs, Follows, Wrap;
    var t := PrintRedirs(rs) + f;
    RedirsTail(rs, f);
    WordNext(w, t);
    PeekAt(t, "");
    assert (w + t)[0] == w[0];
    PeekAt(w + t, "|)&;");
    RedirsBack([], rs, f);
    assert [] + rs == rs;
    ArgsEnd(done + [w], rs, f);
  }

  lemma {:induction false} WordsBack(done: seq<string>, args: seq<string>, rs: seq<Redir>, f: string)
    requires args != [] && |done| + |args| < MAXARGS && (forall i :: 0 <= i < |args| ==> IsWord(args[i]))
    requires FilesOk(rs) && Follows(f, ");&|")
    ensures ParseArgs(done, [], Join(args) + (PrintRedirs(rs) + f)) == Ok(Wrap(Exec(done + args), rs), f)
    decreases |args|
  {
    hide ParseArgs, Skip, PrintRedirs, Wrap;
    var w, more, t := args[0], args[1..], PrintRedirs(rs) + f;
    if more == [] {
      assert args == [w] && Join(args) + t == w + t;
      LastArg(done, w, rs, f);
    } else {
      WordsStart(more);
      var x := Join(more) + t;
      assert x[0] == more[0][0];
      assert Join(args) + t == w + (" " + x);
      SkipSpace(x);
      PeekAt(x, "");
      OneArg(done, w, " " + x, x);
      WordsBack(done + [w], more, rs, f);
      assert done + [w] + more == done + args;
    }
  }

  lemma SimpleBack(args: seq<string>, rs: seq<Redir>, f: string)
    requires WellFormed(Exec(args)) && FilesOk(rs) && Follows(f, ");&|")
    ensures ParseExec(Join(args) + (PrintRedirs(rs) + f)) == Ok(Wrap(Exec(args), rs), f)
  {
    hide ParseArgs, ParseRedirs, PrintRedirs, Skip, Peek;
    var p := Join(args) + (PrintRedirs(rs) + f);
    WordsStart(args);
    RedirsStart(rs);
    if args == [] {
      assert p == PrintRedirs(rs) + f;
      assert p == "" || p[0] == '<' || p[0] == '>' || p == f;
      PeekAt(p, "(");
      RedirsBack([], rs, f);
      assert [] + rs == rs;
      ArgsEnd([], rs, f);
    } else {
      assert p[0] == args[0][0];
      PeekAt(p, "(");
      NoRedirs([], p);
      WordsBack([], args, rs, f);
      assert [] + args == args;
    }
  }

  // ---------- the round trip ----------

  lemma {:induction false} ExecMin(c: Cmd, f: string)
    requires WellFormed(c) && Follows(f, ");&|")
    ensures ParseExec(PrintExec(c) + f) == Ok(c, f)
    decreases c, Rank(c, 0)
  {
    hide ParseExec, ParseLine, Skip, PrintExec, PrintLine, PrintRedirs, Join, Wrap, Redirs, WellFormed, Unwrapped;
    UnwrappedOk(c);
    UnwrappedSmaller(c);
    var d, rs := Unwrapped(c), Redirs(c);
    PrintedExec(c, f);
    if d.Exec? {
      SimpleBack(d.args, rs, f);
    } else {
      LineMin(d, ")" + (PrintRedirs(rs) + f));
      BlockMin(d, rs, f);
    }
  }

  lemma PrintedExec(c: Cmd, f: string)
    ensures var d, rs := Unwrapped(c), Redirs(c);
            PrintExec(c) + f == if d.Exec? then Join(d.args) + (PrintRedirs(rs) + f)
                                else "(" + (PrintLine(d) + (")" + (PrintRedirs(rs) + f)))
  {
  }

  // A block, given that the line inside it reads back.
  lemma BlockMin(d: Cmd, rs: seq<Redir>, f: string)
    requires WellFormed(d) && FilesOk(rs) && Follows(f, ");&|")
    requires var tail := PrintRedirs(rs) + f; ParseLine(PrintLine(d) + (")" + tail)) == Ok(d, ")" + tail)
    ensures ParseExec("(" + (PrintLine(d) + (")" + (PrintRedirs(rs) + f)))) == Ok(Wrap(d, rs), f)
  {
    hide ParseExec, ParseLine, Skip, PrintLine, PrintRedirs, Wrap, WellFormed;
    var tail := PrintRedirs(rs) + f;
    LineStart(d);
    Joined(PrintLine(d), ")" + tail);
    RedirsStart(rs);
    PeekAt(tail, "");
    RedirsBack([], rs, f);
    assert [] + rs == rs;
    BlockIs(PrintLine(d) + (")" + tail), d, tail, rs, f);
  }

  lemma {:induction false} PipeMin(c: Cmd, f: string)
    requires WellFormed(c) && Follows(f, ");&")
    ensures ParsePipe(PrintPipe(c) + f) == Ok(c, f)
    decreases c, Rank(c, 1)
  {
    hide ParseExec, ParsePipe, Skip;
    if c.Pipe? {
      var more := PrintPipe(c.right) + f;
      ExecMin(c.left, "|" + more);
      PipeMin(c.right, f);
      PipeStart(c.right);
      Joined(PrintPipe(c.right), f);
      assert PrintPipe(c) + f == PrintExec(c.left) + ("|" + more);
      PipeMore(PrintPipe(c) + f, c.left, more, c.right, f);
    } else {
      ExecMin(c, f);
      PipeIs(PrintPipe(c) + f, c, f);
    }
  }

  // A command under its ampersands, and how many they are.
  function Core(c: Cmd): Cmd
  {
    if c.Back? then Core(c.cmd) else c
  }

  function Amps(c: Cmd): nat
  {
    if c.Back? then Amps(c.cmd) + 1 else 0
  }

  function AmpText(n: nat): string
  {
    if n == 0 then "" else AmpText(n - 1) + "&"
  }

  function Backs(c: Cmd, n: nat): Cmd
    decreases n
  {
    if n == 0 then c else Backs(Back(c), n - 1)
  }

  lemma {:induction false} BacksOut(c: Cmd, n: nat)
    ensures Backs(Back(c), n) == Back(Backs(c, n))
    decreases n
  {
    if n > 0 {
      BacksOut(Back(c), n - 1);
    }
  }

  lemma {:induction false} CoreBacks(c: Cmd)
    ensures Backs(Core(c), Amps(c)) == c
  {
    if c.Back? {
      CoreBacks(c.cmd);
      BacksOut(Core(c.cmd), Amps(c.cmd));
    }
  }

  lemma {:induction false} AmpFirst(n: nat)
    requires n > 0
    ensures AmpText(n) == "&" + AmpText(n - 1)
  {
    if n > 1 {
      AmpFirst(n - 1);
    }
  }

  lemma {:induction false} BacksBack(c: Cmd, n: nat, f: string)
    requires Follows(f, ");")
    ensures ParseBacks(c, AmpText(n) + f) == (Backs(c, n), f)
    decreases n
  {
    hide Skip, AfterToken, NextToken, Peek;
    if n == 0 {
      assert AmpText(n) + f == f;
      PeekAt(f, "&");
    } else {
      AmpFirst(n);
      var t := AmpText(n - 1) + f;
      assert AmpText(n) + f == ['&'] + t;
      AmpStart(n - 1);
      Joined(AmpText(n - 1), f);
      SymbolNext('&', t);
      PeekAt(['&'] + t, "&");
      BacksBack(Back(c), n - 1, f);
    }
  }

  lemma AmpStart(n: nat)
    ensures NoSpace(AmpText(n)) && (n > 0 ==> AmpText(n)[0] == '&')
  {
    if n > 0 {
      AmpFirst(n);
    }
  }

  lemma {:induction false} ItemMin(c: Cmd, f: string)
    requires WellFormed(c) && Follows(f, ");&")
    ensures ParsePipe(PrintItem(c) + f) == Ok(Core(c), AmpText(Amps(c)) + f)
    decreases c, Rank(c, 2)
  {
    hide ParsePipe;
    if c.Back? {
      ItemMin(c.cmd, "&" + f);
      assert PrintItem(c) + f == PrintItem(c.cmd) + ("&" + f);
      assert AmpText(Amps(c)) + f == AmpText(Amps(c.cmd)) + ("&" + f);
    } else {
      PipeMin(c, f);
      assert AmpText(0) + f == f;
    }
  }

  lemma LineFrom(s: string, p: Cmd, t: string, c: Cmd, more: string, d: Cmd, rest: string)
    requires ParsePipe(s) == Ok(p, t) && ParseBacks(p, t) == (c, ";" + more)
    requires Skip(more) == more && ParseLine(more) == Ok(d, rest)
    ensures ParseLine(s) == Ok(List(c, d), rest)
  {
    hide ParsePipe, ParseBacks, Skip, NextToken, AfterToken, Peek;
    assert ";" + more == [';'] + more;
    SymbolNext(';', more);
    PeekAt(";" + more, ";");
  }

  lemma LineEnd(s: string, p: Cmd, t: string, c: Cmd, rest: string)
    requires ParsePipe(s) == Ok(p, t) && ParseBacks(p, t) == (c, rest) && Stop(rest)
    ensures ParseLine(s) == Ok(c, rest)
  {
    hide ParsePipe, ParseBacks, Skip, NextToken, AfterToken, Peek;
    PeekAt(rest, ";");
  }

  // Reading back what was printed with few parentheses, up to a closing parenthesis or the end.
  lemma {:induction false} LineMin(c: Cmd, s: string)
    requires WellFormed(c) && Stop(s)
    ensures ParseLine(PrintLine(c) + s) == Ok(c, s)
    decreases c, Rank(c, 3)
  {
    hide ParseLine, ParsePipe, ParseBacks, Skip;
    var l := if c.List? then c.left else c;
    CoreBacks(l);
    if c.List? {
      var more := PrintLine(c.right) + s;
      ItemMin(l, ";" + more);
      BacksBack(Core(l), Amps(l), ";" + more);
      LineMin(c.right, s);
      LineStart(c.right);
      Joined(PrintLine(c.right), s);
      assert PrintLine(c) + s == PrintItem(l) + (";" + more);
      LineFrom(PrintLine(c) + s, Core(l), AmpText(Amps(l)) + (";" + more), l, more, c.right, s);
    } else {
      ItemMin(l, s);
      BacksBack(Core(l), Amps(l), s);
      LineEnd(PrintLine(c) + s, Core(l), AmpText(Amps(l)) + s, l, s);
    }
  }

  // Parsing the print of a command with few parentheses gives back that command.
  lemma RoundTripMin(c: Cmd)
    requires WellFormed(c)
    ensures ParseCmd(PrintLine(c)) == Ok(c, "")
  {
    hide ParseLine, PrintLine;
    assert PrintLine(c) + "" == PrintLine(c);
    LineMin(c, "");
  }

  // >> is read as >.
  lemma AppendIsOut(rs: seq<Redir>, w: string, t: string)
    requires IsWord(w) && (t == "" || IsSymbol(t[0]))
    ensures ParseRedirs(rs, ">>" + (w + t)) == ParseRedirs(rs, ">" + (w + t))
  {
    hide Peek;
    var x := w + t;
    assert x[0] == w[0];
    assert ">" + x == PrintRedir(Redir(w, true)) + t;
    OneRedir(rs, Redir(w, true), t);
    SkipNone(">>" + x);
    assert (">>" + x)[2..] == x;
    SkipNone(x);
    PeekAt(">>" + x, "<>");
    WordNext(w, t);
    SkipNone(t);
  }

  // White space before a command does not matter.
  lemma LeadingSpace(s: string)
    ensures ParseCmd(Skip(s)) == ParseCmd(s)
  {
    SkipNone(Skip(s));
    assert ParseRedirs([], Skip(s)) == ParseRedirs([], s);
    assert ParseExec(Skip(s)) == ParseExec(s);
    assert ParsePipe(Skip(s)) == ParsePipe(s);
    assert ParseLine(Skip(s)) == ParseLine(s);
  }

  // ---------- words and redirections in any order ----------

  datatype Piece = Arg(w: string) | To(r: Redir)

  predicate PieceOk(p: Piece)
  {
    IsWord(if p.Arg? then p.w else p.r.file)
  }

  function PieceText(p: Piece): string
  {
    if p.Arg? then p.w else PrintRedir(p.r)
  }

  function PrintPieces(ps: seq<Piece>): string
  {
    if ps == [] then ""
    else " " + (PieceText(ps[0]) + PrintPieces(ps[1..]))
  }

  function Words(p: Piece): seq<string>
  {
    if p.Arg? then [p.w] else []
  }

  function Files(p: Piece): seq<Redir>
  {
    if p.To? then [p.r] else []
  }

  function PieceWords(ps: seq<Piece>): seq<string>
  {
    if ps == [] then [] else Words(ps[0]) + PieceWords(ps[1..])
  }

  function PieceRedirs(ps: seq<Piece>): seq<Redir>
  {
    if ps == [] then [] else Files(ps[0]) + PieceRedirs(ps[1..])
  }

  // What parseexec does after the words args and the redirections rs.
  function Gather(args: seq<string>, rs: seq<Redir>, s: string): Result<Cmd>
  {
    match ParseRedirs(rs, s)
    case Err(p) => Err(p)
    case Ok(rs', rest) => ParseArgs(args, rs', rest)
  }

  lemma GatherSpace(args: seq<string>, rs: seq<Redir>, s: string)
    ensures Gather(args, rs, " " + s) == Gather(args, rs, s)
  {
    SkipSpace(s);
    assert ParseRedirs(rs, " " + s) == ParseRedirs(rs, s);
  }

  lemma GatherRedir(args: seq<string>, rs: seq<Redir>, r: Redir, t: string)
    requires IsWord(r.file) && (t == "" || !IsWordChar(t[0]))
    ensures Gather(args, rs, PrintRedir(r) + t) == Gather(args, rs + [r], t)
  {
    hide NextToken, AfterToken, Peek, ParseArgs;
    var op := if r.out then '>' else '<';
    var s := PrintRedir(r) + t;
    assert s == [op] + (r.file + t);
    assert (r.file + t)[0] == r.file[0];
    SymbolNext(op, r.file + t);
    PeekAt(r.file + t, "");
    PeekAt(s, "<>");
    WordNext(r.file, t);
    SkippedRedirs(rs + [r], t);
  }

  lemma SkippedRedirs(rs: seq<Redir>, t: string)
    ensures ParseRedirs(rs, Skip(t)) == ParseRedirs(rs, t)
  {
    SkipNone(Skip(t));
  }

  lemma GatherArg(args: seq<string>, rs: seq<Redir>, w: string, t: string)
    requires IsWord(w) && |args| + 1 < MAXARGS && (t == "" || !IsWordChar(t[0]))
    ensures Gather(args, rs, w + t) == Gather(args + [w], rs, t)
  {
    hide NextToken, AfterToken, Peek, Skip;
    assert (w + t)[0] == w[0];
    NoRedirs(rs, w + t);
    PeekAt(w + t, "|)&;");
    WordNext(w, t);
    SkippedRedirs(rs, t);
  }

  // One piece.
  lemma PieceStep(args: seq<string>, rs: seq<Redir>, ps: seq<Piece>, f: string)
    requires ps != [] && PieceOk(ps[0]) && |args| + 1 < MAXARGS + (if ps[0].Arg? then 0 else 1) && Follows(f, ");&|")
    ensures Gather(args, rs, PrintPieces(ps) + f) ==
            Gather(args + Words(ps[0]), rs + Files(ps[0]), PrintPieces(ps[1..]) + f)
  {
    hide Gather, PrintRedir, PrintPieces, Follows;
    var p, t := ps[0], PrintPieces(ps[1..]) + f;
    PiecesText(ps, f);
    TailStart(ps[1..], f);
    GatherSpace(args, rs, PieceText(p) + t);
    if p.Arg? {
      GatherArg(args, rs, p.w, t);
      assert rs + Files(p) == rs;
    } else {
      GatherRedir(args, rs, p.r, t);
      assert args + Words(p) == args;
    }
  }

  lemma PiecesText(ps: seq<Piece>, f: string)
    requires ps != []
    ensures PrintPieces(ps) + f == " " + (PieceText(ps[0]) + (PrintPieces(ps[1..]) + f))
  {
    hide PieceText;
    var a, b := PieceText(ps[0]), PrintPieces(ps[1..]);
    assert " " + (a + b) + f == " " + (a + (b + f));
  }

  lemma TailStart(ps: seq<Piece>, f: string)
    requires Follows(f, ");&|")
    ensures var t := PrintPieces(ps) + f; t == "" || !IsWordChar(t[0])
  {
    hide PieceText;
    if ps == [] {
      NoPieces(f);
    }
  }

  // Redirections may stand anywhere among the words: the words make up the command and the
  // redirections wrap it, each in the order they come.
  lemma {:induction false} PiecesBack(args: seq<string>, rs: seq<Redir>, ps: seq<Piece>, f: string)
    requires (forall i :: 0 <= i < |ps| ==> PieceOk(ps[i])) && |args| + |PieceWords(ps)| < MAXARGS && Follows(f, ");&|")
    ensures Gather(args, rs, PrintPieces(ps) + f) == Ok(Wrap(Exec(args + PieceWords(ps)), rs + PieceRedirs(ps)), f)
    decreases |ps|
  {
    hide Gather, Wrap, PrintPieces, Follows, PieceOk;
    if ps == [] {
      NoPieces(f);
      assert args + PieceWords(ps) == args && rs + PieceRedirs(ps) == rs;
      GatherEnd(args, rs, f);
    } else {
      var more := ps[1..];
      PieceStep(args, rs, ps, f);
      PiecesBack(args + Words(ps[0]), rs + Files(ps[0]), more, f);
      assert args + Words(ps[0]) + PieceWords(more) == args + PieceWords(ps);
      assert rs + Files(ps[0]) + PieceRedirs(more) == rs + PieceRedirs(ps);
    }
  }

  lemma NoPieces(f: string)
    ensures PrintPieces([]) + f == f
  {
  }

  lemma GatherEnd(args: seq<string>, rs: seq<Redir>, f: string)
    requires Follows(f, ");&|")
    ensures Gather(args, rs, f) == Ok(Wrap(Exec(args), rs), f)
  {
    NoRedirs(rs, f);
    ArgsEnd(args, rs, f);
  }

  lemma AnyOrder(ps: seq<Piece>, f: string)
    requires (forall i :: 0 <= i < |ps| ==> PieceOk(ps[i])) && |PieceWords(ps)| < MAXARGS && Follows(f, ");&|")
    ensures ParseExec(PrintPieces(ps) + f) == Ok(Wrap(Exec(PieceWords(ps)), PieceRedirs(ps)), f)
  {
    hide Wrap, ParseRedirs, ParseArgs, PrintPieces, Peek, PieceOk;
    PiecesBack([], [], ps, f);
    assert [] + PieceWords(ps) == PieceWords(ps) && [] + PieceRedirs(ps) == PieceRedirs(ps);
    NoBlockThere(ps, f);
  }

  lemma NoBlockThere(ps: seq<Piece>, f: string)
    requires (forall i :: 0 <= i < |ps| ==> PieceOk(ps[i])) && Follows(f, ");&|")
    ensures !Peek(PrintPieces(ps) + f, "(")
  {
    hide PrintPieces, PieceText, PieceOk, Skip;
    if ps == [] {
      NoPieces(f);
      PeekAt(f, "(");
    } else {
      var x := PieceText(ps[0]) + (PrintPieces(ps[1..]) + f);
      PiecesText(ps, f);
      SkipSpace(x);
      PieceStart(ps[0], PrintPieces(ps[1..]) + f);
      PeekAt(x, "(");
    }
  }

  lemma PieceStart(p: Piece, t: string)
    requires PieceOk(p)
    ensures var x := PieceText(p) + t; x != "" && !IsSpace(x[0]) && x[0] != '('
  {
    if p.Arg? {
      assert (p.w + t)[0] == p.w[0];
    }
  }
}
