/**
  Which lines sh.c accepts, by one pass over the tokens with a count of open parentheses, and what
  the command of an accepted line is made of.
 */
module ShellLines {
  import opened ShellSpec

  // ---------- the pass ----------

  // Where in a line one is: where a command may start, in a simple command after n words, after a
  // block, or after an ampersand.
  datatype Place = Start | Words(n: nat) | Closed | Behind

  predicate Redirects(t: Token)
  {
    t == Symbol('<') || t == Symbol('>') || t == Append
  }

  predicate Scan(s: string, q: Place, depth: nat)
    decreases |s|
  {
    var t, rest := NextToken(s), AfterToken(s);
    if t.End? then depth == 0
    else if t == Symbol(')') then depth > 0 && Scan(rest, Closed, depth - 1)
    else if t == Symbol(';') then Scan(rest, Start, depth)
    else if t == Symbol('&') then Scan(rest, Behind, depth)
    else if q.Behind? then false
    else if t == Symbol('|') then Scan(rest, Start, depth)
    else if Redirects(t) then
      NextToken(rest).Word? && Scan(AfterToken(rest), if q.Start? then Words(0) else q, depth)
    else if q.Closed? then false
    else if t == Symbol('(') then q.Start? && Scan(rest, Start, depth + 1)
    else
      var n := if q.Words? then q.n + 1 else 1;
      n < MAXARGS && Scan(rest, Words(n), depth)
  }

  // What may follow a line, a pipeline and one command of it.
  predicate AfterLine(s: string, depth: nat)
  {
    var t := NextToken(s);
    if t.End? then depth == 0 else t == Symbol(')') && depth > 0 && Scan(AfterToken(s), Closed, depth - 1)
  }

  predicate AfterBacks(s: string, depth: nat)
  {
    AfterLine(s, depth) || (NextToken(s) == Symbol(';') && Scan(AfterToken(s), Start, depth))
  }

  predicate AfterPipe(s: string, depth: nat)
  {
    AfterBacks(s, depth) || (NextToken(s) == Symbol('&') && Scan(AfterToken(s), Behind, depth))
  }

  predicate AfterCommand(s: string, depth: nat)
  {
    AfterPipe(s, depth) || (NextToken(s) == Symbol('|') && Scan(AfterToken(s), Start, depth))
  }

  // ---------- tokens ----------

  lemma SkipTwice(s: string)
    ensures Skip(Skip(s)) == Skip(s) && NextToken(Skip(s)) == NextToken(s) && AfterToken(Skip(s)) == AfterToken(s)
  {
    SkipNone(Skip(s));
  }

  lemma PeekIs(s: string)
    ensures Peek(s, "(") <==> NextToken(s) == Symbol('(')
    ensures Peek(s, ")") <==> NextToken(s) == Symbol(')')
    ensures Peek(s, "|") <==> NextToken(s) == Symbol('|')
    ensures Peek(s, "&") <==> NextToken(s) == Symbol('&')
    ensures Peek(s, ";") <==> NextToken(s) == Symbol(';')
    ensures Peek(s, "<>") <==> Redirects(NextToken(s))
    ensures Peek(s, "|)&;") <==>
              NextToken(s) == Symbol('|') || NextToken(s) == Symbol(')') || NextToken(s) == Symbol('&')
              || NextToken(s) == Symbol(';')
    ensures Skip(s) == "" <==> NextToken(s).End?
    ensures NextToken(s).Symbol? ==> IsSymbol(NextToken(s).c)
  {
  }

  lemma {:induction false} ScanSkips(s: string, q: Place, depth: nat)
    ensures Scan(Skip(s), q, depth) == Scan(s, q, depth)
  {
    SkipTwice(s);
  }

  lemma AfterSkips(s: string, depth: nat)
    ensures AfterCommand(Skip(s), depth) == AfterCommand(s, depth) && AfterPipe(Skip(s), depth) == AfterPipe(s, depth)
    ensures AfterBacks(Skip(s), depth) == AfterBacks(s, depth) && AfterLine(Skip(s), depth) == AfterLine(s, depth)
  {
    hide Scan, Skip, NextToken, AfterToken;
    SkipTwice(s);
  }

  // ---------- the parser and the pass agree ----------

  lemma {:induction false} RedirsScan(rs: seq<Redir>, s: string, q: Place, depth: nat)
    requires q.Words? || q.Closed?
    ensures var r := ParseRedirs(rs, s);
            && Scan(s, q, depth) == (r.Ok? && Scan(r.rest, q, depth))
            && (r.Ok? ==> !Redirects(NextToken(r.rest)))
    decreases |s|
  {
    hide Skip, NextToken, AfterToken;
    PeekIs(s);
    SkipTwice(s);
    var after := AfterToken(s);
    if Redirects(NextToken(s)) && NextToken(after).Word? {
      RedirsScan(rs + [Redir(NextToken(after).w, NextToken(s) != Symbol('<'))], AfterToken(after), q, depth);
    } else if !Redirects(NextToken(s)) {
      ScanSkips(s, q, depth);
    }
  }

  lemma {:induction false} ArgsScan(args: seq<string>, rs: seq<Redir>, s: string, depth: nat)
    requires !Redirects(NextToken(s))
    ensures var r := ParseArgs(args, rs, s);
            Scan(s, Words(|args|), depth) == (r.Ok? && AfterCommand(r.rest, depth))
    decreases |s|
  {
    hide Skip, NextToken, AfterToken;
    PeekIs(s);
    if NextToken(s).Word? && |args| + 1 < MAXARGS {
      var w := NextToken(s).w;
      RedirsScan(rs, AfterToken(s), Words(|args| + 1), depth);
      var r := ParseRedirs(rs, AfterToken(s));
      if r.Ok? {
        ArgsScan(args + [w], r.value, r.rest, depth);
      }
    } else {
      AfterSkips(s, depth);
    }
  }

  // A command that does not begin with a parenthesis.
  lemma SimpleStart(s: string, depth: nat)
    requires NextToken(s) != Symbol('(')
    ensures Scan(s, Start, depth) == Scan(s, Words(0), depth)
  {
    hide Skip, NextToken, AfterToken;
  }

  lemma ClosedAfter(s: string, depth: nat)
    requires !Redirects(NextToken(s))
    ensures Scan(s, Closed, depth) == AfterCommand(s, depth)
  {
    hide Skip, NextToken, AfterToken;
  }

  lemma {:induction false} ExecScan(s: string, depth: nat)
    ensures var r := ParseExec(s); Scan(s, Start, depth) == (r.Ok? && AfterCommand(r.rest, depth))
    decreases |s|, 1
  {
    hide Skip, NextToken, AfterToken, AfterCommand, ParseArgs, ParseRedirs, ParseBlock, Scan;
    PeekIs(s);
    if NextToken(s) == Symbol('(') {
      SkipTwice(s);
      BlockScan(Skip(s), depth);
      ScanSkips(s, Start, depth);
    } else {
      SimpleStart(s, depth);
      RedirsScan([], s, Words(0), depth);
      var r := ParseRedirs([], s);
      if r.Ok? {
        ArgsScan([], r.value, r.rest, depth);
      }
    }
  }

  lemma {:induction false} BlockScan(s: string, depth: nat)
    requires NextToken(s) == Symbol('(')
    ensures var r := ParseBlock(s); Scan(s, Start, depth) == (r.Ok? && AfterCommand(r.rest, depth))
    decreases |s|, 0
  {
    hide Skip, NextToken, AfterToken, AfterCommand, ParseRedirs, ParseLine;
    PeekIs(s);
    LineScan(AfterToken(s), depth + 1);
    var r := ParseLine(AfterToken(s));
    if r.Ok? {
      PeekIs(r.rest);
      if NextToken(r.rest) == Symbol(')') {
        RedirsScan([], AfterToken(r.rest), Closed, depth);
        var rr := ParseRedirs([], AfterToken(r.rest));
        if rr.Ok? {
          ClosedAfter(rr.rest, depth);
        }
      }
    }
  }

  lemma {:induction false} PipeScan(s: string, depth: nat)
    ensures var r := ParsePipe(s); Scan(s, Start, depth) == (r.Ok? && AfterPipe(r.rest, depth))
    decreases |s|, 2
  {
    hide Skip, NextToken, AfterToken, ParseExec, Scan;
    ExecScan(s, depth);
    var r := ParseExec(s);
    if r.Ok? {
      PeekIs(r.rest);
      AfterSkips(r.rest, depth);
      if NextToken(r.rest) == Symbol('|') {
        PipeScan(AfterToken(r.rest), depth);
      }
    }
  }

  lemma {:induction false} BacksScan(c: Cmd, s: string, depth: nat)
    ensures AfterPipe(s, depth) == AfterBacks(ParseBacks(c, s).1, depth)
    ensures NextToken(ParseBacks(c, s).1) != Symbol('&')
    decreases |s|
  {
    hide Skip, NextToken, AfterToken;
    PeekIs(s);
    SkipTwice(s);
    if NextToken(s) == Symbol('&') {
      BehindAfter(AfterToken(s), depth);
      BacksScan(Back(c), AfterToken(s), depth);
    } else {
      AfterSkips(s, depth);
    }
  }

  lemma BehindAfter(s: string, depth: nat)
    ensures Scan(s, Behind, depth) == AfterPipe(s, depth)
  {
    hide Skip, NextToken, AfterToken;
  }

  lemma {:induction false} LineScan(s: string, depth: nat)
    ensures var r := ParseLine(s); Scan(s, Start, depth) == (r.Ok? && AfterLine(r.rest, depth))
    decreases |s|, 3
  {
    hide Skip, NextToken, AfterToken, ParsePipe, Scan, AfterPipe;
    PipeScan(s, depth);
    var r := ParsePipe(s);
    if r.Ok? {
      BacksScan(r.value, r.rest, depth);
      var rest := ParseBacks(r.value, r.rest).1;
      PeekIs(rest);
      AfterSkips(rest, depth);
      if NextToken(rest) == Symbol(';') {
        LineScan(AfterToken(rest), depth);
      }
    }
  }

  // A line is accepted exactly if the pass comes to its end with every parenthesis closed.
  lemma Accepted(s: string)
    ensures ParseCmd(s).Ok? <==> Scan(s, Start, 0)
  {
    hide Skip, NextToken, AfterToken, ParseLine, Scan;
    LineScan(s, 0);
    if ParseLine(s).Ok? {
      PeekIs(ParseLine(s).rest);
    }
  }

  // ---------- parentheses ----------

  // The parentheses open at the end of s, or -1 where one is closed that is not open.
  function Depth(s: string, depth: int): int
    decreases |s|
  {
    var t := NextToken(s);
    if t.End? || depth < 0 then depth
    else Depth(AfterToken(s), if t == Symbol('(') then depth + 1 else if t == Symbol(')') then depth - 1 else depth)
  }

  lemma {:induction false} ScanBalances(s: string, q: Place, depth: nat)
    requires Scan(s, q, depth)
    ensures Depth(s, depth) == 0
    decreases |s|
  {
    hide Skip, NextToken, AfterToken;
    var t, rest := NextToken(s), AfterToken(s);
    if t.End? {
    } else if t == Symbol(')') {
      ScanBalances(rest, Closed, depth - 1);
    } else if t == Symbol(';') || t == Symbol('|') {
      ScanBalances(rest, Start, depth);
    } else if t == Symbol('&') {
      ScanBalances(rest, Behind, depth);
    } else if Redirects(t) {
      ScanBalances(AfterToken(rest), if q.Start? then Words(0) else q, depth);
    } else if t == Symbol('(') {
      ScanBalances(rest, Start, depth + 1);
    } else {
      ScanBalances(rest, Words(if q.Words? then q.n + 1 else 1), depth);
    }
  }

  // The parentheses of an accepted line match.
  lemma Balanced(s: string)
    requires ParseCmd(s).Ok?
    ensures Depth(s, 0) == 0
  {
    Accepted(s);
    ScanBalances(s, Start, 0);
  }

  // ---------- what the command is made of ----------

  // The words and the operators of a line, without parentheses and redirections,
  function Bare(s: string): seq<Token>
    decreases |s|
  {
    var t, rest := NextToken(s), AfterToken(s);
    if t.End? then []
    else if Redirects(t) then Bare(AfterToken(rest))
    else if t == Symbol('(') || t == Symbol(')') then Bare(rest)
    else [t] + Bare(rest)
  }

  // and its redirections.
  function Redirections(s: string): seq<Redir>
    decreases |s|
  {
    var t, rest := NextToken(s), AfterToken(s);
    if t.End? then []
    else if Redirects(t) then
      (if NextToken(rest).Word? then [Redir(NextToken(rest).w, t != Symbol('<'))] else [])
      + Redirections(AfterToken(rest))
    else Redirections(rest)
  }

  function WordTokens(args: seq<string>): seq<Token>
  {
    seq(|args|, i requires 0 <= i < |args| => Word(args[i]))
  }

  // Those of a command, from left to right.
  function Parts(c: Cmd): seq<Token>
  {
    match c
    case Exec(args) => WordTokens(args)
    case Redirected(d, _) => Parts(d)
    case Pipe(l, r) => Parts(l) + [Symbol('|')] + Parts(r)
    case List(l, r) => Parts(l) + [Symbol(';')] + Parts(r)
    case Back(d) => Parts(d) + [Symbol('&')]
  }

  function Files(c: Cmd): seq<Redir>
  {
    match c
    case Exec(_) => []
    case Redirected(d, r) => Files(d) + [r]
    case Pipe(l, r) => Files(l) + Files(r)
    case List(l, r) => Files(l) + Files(r)
    case Back(d) => Files(d)
  }

  // A part of the line, up to rest, that has made command c.
  predicate Makes(s: string, c: Cmd, rest: string)
  {
    Bare(s) == Parts(c) + Bare(rest) && Redirections(s) == Files(c) + Redirections(rest)
  }

  lemma BareSkips(s: string)
    ensures Bare(Skip(s)) == Bare(s) && Redirections(Skip(s)) == Redirections(s)
  {
    SkipTwice(s);
  }

  lemma {:induction false} WrapParts(c: Cmd, rs: seq<Redir>)
    ensures Parts(Wrap(c, rs)) == Parts(c) && Files(Wrap(c, rs)) == Files(c) + rs
  {
    if rs != [] {
      WrapParts(c, rs[..|rs| - 1]);
      assert rs[..|rs| - 1] + [rs[|rs| - 1]] == rs;
    }
  }

  lemma {:induction false} RedirsMake(rs: seq<Redir>, s: string)
    ensures var r := ParseRedirs(rs, s);
            r.Ok? ==> Bare(s) == Bare(r.rest) && rs + Redirections(s) == r.value + Redirections(r.rest)
    decreases |s|
  {
    hide Skip, NextToken, AfterToken;
    PeekIs(s);
    BareSkips(s);
    var after := AfterToken(s);
    if Redirects(NextToken(s)) && NextToken(after).Word? {
      var x := Redir(NextToken(after).w, NextToken(s) != Symbol('<'));
      RedirsMake(rs + [x], AfterToken(after));
      assert rs + ([x] + Redirections(AfterToken(after))) == rs + [x] + Redirections(AfterToken(after));
    }
  }

  lemma {:induction false} ArgsMake(args: seq<string>, rs: seq<Redir>, s: string)
    ensures var r := ParseArgs(args, rs, s);
            r.Ok? ==>
              && WordTokens(args) + Bare(s) == Parts(r.value) + Bare(r.rest)
              && rs + Redirections(s) == Files(r.value) + Redirections(r.rest)
    decreases |s|
  {
    hide Skip, NextToken, AfterToken;
    PeekIs(s);
    BareSkips(s);
    WrapParts(Exec(args), rs);
    if NextToken(s).Word? && |args| + 1 < MAXARGS {
      var w := NextToken(s).w;
      RedirsMake(rs, AfterToken(s));
      var r := ParseRedirs(rs, AfterToken(s));
      if r.Ok? {
        ArgsMake(args + [w], r.value, r.rest);
        assert WordTokens(args + [w]) == WordTokens(args) + [Word(w)];
        assert WordTokens(args) + ([Word(w)] + Bare(AfterToken(s))) == WordTokens(args) + [Word(w)]
               + Bare(AfterToken(s));
      }
    }
  }

  lemma {:induction false} ExecMakes(s: string)
    ensures var r := ParseExec(s); r.Ok? ==> Makes(s, r.value, r.rest)
    decreases |s|, 1
  {
    hide Skip, NextToken, AfterToken, ParseArgs, ParseRedirs, ParseBlock;
    PeekIs(s);
    BareSkips(s);
    SkipTwice(s);
    if NextToken(s) == Symbol('(') {
      BlockMakes(Skip(s));
    } else {
      RedirsMake([], s);
      var r := ParseRedirs([], s);
      if r.Ok? {
        ArgsMake([], r.value, r.rest);
        assert WordTokens([]) + Bare(r.rest) == Bare(r.rest) && [] + Redirections(s) == Redirections(s);
      }
    }
  }

  lemma {:induction false} BlockMakes(s: string)
    ensures var r := ParseBlock(s); r.Ok? ==> Makes(s, r.value, r.rest)
    decreases |s|, 0
  {
    hide Skip, NextToken, AfterToken, ParseRedirs, ParseLine, Bare, Redirections, Makes;
    PeekIs(s);
    if ParseBlock(s).Ok? {
      LineMakes(AfterToken(s));
      var r := ParseLine(AfterToken(s));
      PeekIs(r.rest);
      RedirsMake([], AfterToken(r.rest));
      var rs := ParseRedirs([], AfterToken(r.rest));
      BlockJoins(s, r.value, r.rest, rs.value, rs.rest);
    }
  }

  // A part in parentheses, with its redirections.
  lemma BlockJoins(s: string, c: Cmd, mid: string, rs: seq<Redir>, rest: string)
    requires NextToken(s) == Symbol('(') && Makes(AfterToken(s), c, mid) && NextToken(mid) == Symbol(')')
    requires Bare(AfterToken(mid)) == Bare(rest)
    requires [] + Redirections(AfterToken(mid)) == rs + Redirections(rest)
    ensures Makes(s, Wrap(c, rs), rest)
  {
    hide Skip, NextToken, AfterToken, Wrap, Bare, Redirections, Parts, Files;
    WrapParts(c, rs);
    ParenSkipped(s);
    ParenSkipped(mid);
    Regroup(Files(c), rs, Redirections(rest));
    assert [] + Redirections(AfterToken(mid)) == Redirections(AfterToken(mid));
  }

  lemma ParenSkipped(s: string)
    requires NextToken(s) == Symbol('(') || NextToken(s) == Symbol(')')
    ensures Bare(s) == Bare(AfterToken(s)) && Redirections(s) == Redirections(AfterToken(s))
  {
    hide Skip, NextToken, AfterToken;
  }

  lemma Regroup<T>(a: seq<T>, b: seq<T>, c: seq<T>)
    ensures a + (b + c) == a + b + c
  {
  }

  lemma {:induction false} PipeMakes(s: string)
    ensures var r := ParsePipe(s); r.Ok? ==> Makes(s, r.value, r.rest)
    decreases |s|, 2
  {
    hide Skip, NextToken, AfterToken, ParseExec;
    if ParsePipe(s).Ok? {
      ExecMakes(s);
      var r := ParseExec(s);
      PeekIs(r.rest);
      BareSkips(r.rest);
      if NextToken(r.rest) == Symbol('|') {
        PipeMakes(AfterToken(r.rest));
        JoinMakes(s, r.value, r.rest, '|', ParsePipe(AfterToken(r.rest)).value, ParsePipe(AfterToken(r.rest)).rest);
      }
    }
  }

  // Two parts with an operator between them.
  lemma JoinMakes(s: string, c: Cmd, mid: string, op: char, d: Cmd, rest: string)
    requires Makes(s, c, mid) && NextToken(mid) == Symbol(op) && (op == '|' || op == ';')
    requires Makes(AfterToken(mid), d, rest)
    ensures Makes(s, if op == '|' then Pipe(c, d) else List(c, d), rest)
  {
    hide Skip, NextToken, AfterToken;
    assert Parts(c) + ([Symbol(op)] + (Parts(d) + Bare(rest))) == Parts(c) + [Symbol(op)] + Parts(d) + Bare(rest);
    assert Files(c) + (Files(d) + Redirections(rest)) == Files(c) + Files(d) + Redirections(rest);
  }

  lemma {:induction false} BacksMake(s0: string, c: Cmd, s: string)
    requires Makes(s0, c, s)
    ensures var (d, rest) := ParseBacks(c, s); Makes(s0, d, rest)
    decreases |s|
  {
    hide Skip, NextToken, AfterToken;
    PeekIs(s);
    BareSkips(s);
    if NextToken(s) == Symbol('&') {
      assert Parts(c) + ([Symbol('&')] + Bare(AfterToken(s))) == Parts(c) + [Symbol('&')] + Bare(AfterToken(s));
      BacksMake(s0, Back(c), AfterToken(s));
    }
  }

  lemma {:induction false} LineMakes(s: string)
    ensures var r := ParseLine(s); r.Ok? ==> Makes(s, r.value, r.rest)
    decreases |s|, 3
  {
    hide Skip, NextToken, AfterToken, ParsePipe, Makes;
    if ParseLine(s).Ok? {
      PipeMakes(s);
      var r := ParsePipe(s);
      BacksMake(s, r.value, r.rest);
      var (c, rest) := ParseBacks(r.value, r.rest);
      PeekIs(rest);
      MakesSkips(s, c, rest);
      if NextToken(rest) == Symbol(';') {
        LineMakes(AfterToken(rest));
        JoinMakes(s, c, rest, ';', ParseLine(AfterToken(rest)).value, ParseLine(AfterToken(rest)).rest);
      }
    }
  }

  lemma MakesSkips(s: string, c: Cmd, rest: string)
    ensures Makes(s, c, Skip(rest)) == Makes(s, c, rest)
  {
    BareSkips(rest);
  }

  // The command of an accepted line has every word, operator and redirection of the line, in order,
  // and no others.
  lemma NothingLost(s: string)
    requires ParseCmd(s).Ok?
    ensures Parts(ParseCmd(s).value) == Bare(s) && Files(ParseCmd(s).value) == Redirections(s)
  {
    hide Skip, NextToken, AfterToken, ParseLine;
    LineMakes(s);
    var r := ParseLine(s);
    PeekIs(r.rest);
    assert Bare(r.rest) == [] && Redirections(r.rest) == [];
  }
}
