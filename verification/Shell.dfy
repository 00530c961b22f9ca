/**
  The parser of sh.c: a cursor over the line, commands that point into it, and the NULs written
  into it afterwards.
 */
module Shell {
  import opened ShellSpec

  // A word of the line, from its first character to the one after its last.
  datatype Span = Span(q: int, eq: int)

  datatype RedirNode = RedirNode(file: Span, out: bool)

  datatype Node =
    | ExecNode(argv: seq<Span>)
    | RedirectedNode(cmd: Node, redir: RedirNode)
    | PipeNode(left: Node, right: Node)
    | ListNode(left: Node, right: Node)
    | BackNode(cmd: Node)

  datatype Parsed<T> = Good(value: T) | Bad(panic: Panic)

  // ---------- what a node stands for ----------

  function Sub(line: string, sp: Span): string
  {
    if 0 <= sp.q <= sp.eq <= |line| then line[sp.q..sp.eq] else ""
  }

  function Words(line: string, argv: seq<Span>): (r: seq<string>)
    ensures |r| == |argv|
  {
    seq(|argv|, i requires 0 <= i < |argv| => Sub(line, argv[i]))
  }

  function RedirText(line: string, r: RedirNode): Redir
  {
    Redir(Sub(line, r.file), r.out)
  }

  function RedirTexts(line: string, rs: seq<RedirNode>): (r: seq<Redir>)
    ensures |r| == |rs|
  {
    seq(|rs|, i requires 0 <= i < |rs| => RedirText(line, rs[i]))
  }

  function Text(line: string, n: Node): Cmd
  {
    match n
    case ExecNode(argv) => Exec(Words(line, argv))
    case RedirectedNode(c, r) => Redirected(Text(line, c), RedirText(line, r))
    case PipeNode(l, r) => Pipe(Text(line, l), Text(line, r))
    case ListNode(l, r) => List(Text(line, l), Text(line, r))
    case BackNode(c) => Back(Text(line, c))
  }

  // A whole word: nothing but word characters, and no word character after it.
  predicate SpanOk(line: string, sp: Span)
  {
    && 0 <= sp.q < sp.eq <= |line|
    && (forall i :: sp.q <= i < sp.eq ==> IsWordChar(line[i]))
    && (sp.eq == |line| || !IsWordChar(line[sp.eq]))
  }

  predicate NodeOk(line: string, n: Node)
  {
    match n
    case ExecNode(argv) => forall i :: 0 <= i < |argv| ==> SpanOk(line, argv[i])
    case RedirectedNode(c, r) => NodeOk(line, c) && SpanOk(line, r.file)
    case PipeNode(l, r) => NodeOk(line, l) && NodeOk(line, r)
    case ListNode(l, r) => NodeOk(line, l) && NodeOk(line, r)
    case BackNode(c) => NodeOk(line, c)
  }

  predicate RedirsOkAt(line: string, rs: seq<RedirNode>)
  {
    forall i :: 0 <= i < |rs| ==> SpanOk(line, rs[i].file)
  }

  // The redirections read so far, around a command.
  function WrapNode(n: Node, rs: seq<RedirNode>): Node
  {
    if rs == [] then n else RedirectedNode(WrapNode(n, rs[..|rs| - 1]), rs[|rs| - 1])
  }

  lemma {:induction false} WrapText(line: string, n: Node, rs: seq<RedirNode>)
    ensures Text(line, WrapNode(n, rs)) == Wrap(Text(line, n), RedirTexts(line, rs))
    ensures NodeOk(line, n) && RedirsOkAt(line, rs) ==> NodeOk(line, WrapNode(n, rs))
  {
    if rs != [] {
      WrapText(line, n, rs[..|rs| - 1]);
      assert RedirTexts(line, rs)[..|rs| - 1] == RedirTexts(line, rs[..|rs| - 1]);
    }
  }

  // A method's result is what the grammar says.
  ghost predicate Agrees(line: string, r: Parsed<Node>, spec: Result<Cmd>, rest: string)
  {
    if spec.Err? then r == Bad(spec.panic)
    else r.Good? && Text(line, r.value) == spec.value && NodeOk(line, r.value) && rest == spec.rest
  }

  // ---------- the parser ----------

  class Parser {
    const line: string
    var pos: nat

    ghost predicate Valid()
      reads this
    {
      pos <= |line|
    }

    // What is left of the line.
    ghost function Rest(): string
      reads this
      requires Valid()
    {
      line[pos..]
    }

    constructor (line: string)
      ensures this.line == line && Valid() && Rest() == line
    {
      this.line, pos := line, 0;
    }

    method SkipSpace()
      requires Valid()
      modifies this`pos
      ensures Valid() && Rest() == Skip(old(Rest())) && old(pos) <= pos
    {
      while pos < |line| && IsSpace(line[pos])
        invariant Valid() && Skip(Rest()) == Skip(old(Rest())) && old(pos) <= pos
      {
        assert line[pos..][1..] == line[pos + 1..];
        pos := pos + 1;
      }
    }

    method Peeks(toks: string) returns (yes: bool)
      requires Valid()
      modifies this`pos
      ensures Valid() && Rest() == Skip(old(Rest())) && yes == Peek(old(Rest()), toks)
    {
      SkipSpace();
      return pos < |line| && line[pos] in toks;
    }

    // The end of the word at pos.
    method WordEnd() returns (end: nat)
      requires Valid()
      ensures end <= |line| && end == pos + WordLength(Rest())
    {
      end := pos;
      while end < |line| && IsWordChar(line[end])
        invariant pos <= end <= |line| && WordLength(Rest()) == end - pos + WordLength(line[end..])
      {
        assert line[end..][1..] == line[end + 1..];
        end := end + 1;
      }
    }

    method Gettoken() returns (tok: Token, sp: Span)
      requires Valid()
      modifies this`pos
      ensures Valid() && Rest() == AfterToken(old(Rest())) && tok == NextToken(old(Rest()))
      ensures tok.Word? ==> SpanOk(line, sp) && Sub(line, sp) == tok.w
    {
      SkipSpace();
      ghost var start := Rest();
      var q := pos;
      if pos == |line| {
        tok := End;
      } else if line[pos] == '>' && pos + 1 < |line| && line[pos + 1] == '>' {
        tok := Append;
        pos := pos + 2;
      } else if IsSymbol(line[pos]) {
        tok := Symbol(line[pos]);
        pos := pos + 1;
      } else {
        var end := WordEnd();
        WordLengthWord(start);
        tok := Word(line[pos..end]);
        pos := end;
      }
      sp := Span(q, pos);
      assert line[pos..] == start[TokenLength(start)..];
      assert tok == FirstToken(start) by {
        if tok.Word? {
          assert line[q..pos] == start[..pos - q];
        }
      }
      if tok.Word? {
        TokenSpan(line, q, pos, start);
      }
      SkipSpace();
    }

    // The redirections that follow, after those in rs.
    method Parseredirs(rs: seq<RedirNode>) returns (r: Parsed<seq<RedirNode>>)
      requires Valid() && RedirsOkAt(line, rs)
      modifies this`pos
      ensures Valid() && |Rest()| <= |old(Rest())|
      ensures var spec := ParseRedirs(RedirTexts(line, rs), old(Rest()));
              if spec.Err? then r == Bad(spec.panic)
              else
                && r.Good? && RedirTexts(line, r.value) == spec.value && RedirsOkAt(line, r.value)
                && Rest() == spec.rest
    {
      hide AfterToken, NextToken, Peek, Skip, SpanOk;
      var all := rs;
      Skipped(Rest(), "<>");
      var more := Peeks("<>");
      while more
        invariant Valid() && RedirsOkAt(line, all) && |Rest()| <= |old(Rest())|
        invariant Skip(Rest()) == Rest() && more == Peek(Rest(), "<>")
        invariant ParseRedirs(RedirTexts(line, all), Rest()) == ParseRedirs(RedirTexts(line, rs), old(Rest()))
        decreases |Rest()|
      {
        ghost var before := Rest();
        PeekToken(before, "<>");
        var tok, _ := Gettoken();
        ghost var mid := Rest();
        var file, sp := Gettoken();
        if !file.Word? {
          return Bad(MissingFile);
        }
        PeekToken(mid, "");
        var was := all;
        all := all + [RedirNode(sp, tok != Symbol('<'))];
        assert RedirTexts(line, all) == RedirTexts(line, was) + [Redir(file.w, tok != Symbol('<'))];
        Skipped(Rest(), "<>");
        more := Peeks("<>");
      }
      return Good(all);
    }

    // The words and redirections of a simple command, after the redirections in rs0.
    method Parseargs(rs0: seq<RedirNode>) returns (r: Parsed<Node>)
      requires Valid() && RedirsOkAt(line, rs0)
      modifies this`pos
      ensures Valid() && |Rest()| <= |old(Rest())|
      ensures Agrees(line, r, ParseArgs([], RedirTexts(line, rs0), old(Rest())), Rest())
    {
      hide AfterToken, NextToken, Peek, Skip, SpanOk, ParseRedirs;
      var argv: seq<Span>, rs := [], rs0;
      while true
        invariant Valid() && RedirsOkAt(line, rs) && |Rest()| <= |old(Rest())| && |argv| < MAXARGS
        invariant forall i :: 0 <= i < |argv| ==> SpanOk(line, argv[i])
        invariant ParseArgs(Words(line, argv), RedirTexts(line, rs), Rest()) == ParseArgs([], RedirTexts(line, rs0),
              old(Rest()))
        decreases |Rest()|
      {
        ghost var before := Rest();
        Skipped(before, "|)&;");
        PeekToken(before, "|)&;");
        var stop := Peeks("|)&;");
        if stop {
          break;
        }
        var tok, sp := Gettoken();
        if tok.End? {
          AtEndOfLine(before);
          break;
        }
        if !tok.Word? {
          return Bad(Syntax);
        }
        var was := argv;
        argv := argv + [sp];
        assert Words(line, argv) == Words(line, was) + [tok.w];
        if |argv| >= MAXARGS {
          return Bad(TooManyArgs);
        }
        var more := Parseredirs(rs);
        if more.Bad? {
          return Bad(more.panic);
        }
        rs := more.value;
      }
      WrapText(line, ExecNode(argv), rs);
      return Good(WrapNode(ExecNode(argv), rs));
    }

    method Parseexec() returns (r: Parsed<Node>)
      requires Valid()
      modifies this`pos
      ensures Valid() && |Rest()| <= |old(Rest())|
      ensures Agrees(line, r, ParseExec(old(Rest())), Rest())
      decreases |line| - pos, 1
    {
      hide AfterToken, NextToken, Peek, Skip, SpanOk, ParseRedirs, ParseArgs, ParseBlock;
      Skipped(Rest(), "(");
      var block := Peeks("(");
      if block {
        r := Parseblock();
        return;
      }
      var rs := Parseredirs([]);
      if rs.Bad? {
        return Bad(rs.panic);
      }
      r := Parseargs(rs.value);
    }

    method Parseblock() returns (r: Parsed<Node>)
      requires Valid()
      modifies this`pos
      ensures Valid() && |Rest()| <= |old(Rest())|
      ensures Agrees(line, r, ParseBlock(old(Rest())), Rest())
      decreases |line| - pos, 0
    {
      hide AfterToken, NextToken, Peek, Skip, SpanOk, ParseRedirs, ParseLine;
      Skipped(Rest(), "(");
      PeekToken(Rest(), "(");
      var open := Peeks("(");
      if !open {
        return Bad(NoBlock);
      }
      var tok, sp := Gettoken();
      r := Parseline();
      if r.Bad? {
        return;
      }
      Skipped(Rest(), ")");
      PeekToken(Rest(), ")");
      var close := Peeks(")");
      if !close {
        return Bad(MissingParen);
      }
      tok, sp := Gettoken();
      var rs := Parseredirs([]);
      if rs.Bad? {
        return Bad(rs.panic);
      }
      WrapText(line, r.value, rs.value);
      return Good(WrapNode(r.value, rs.value));
    }

    method Parsepipe() returns (r: Parsed<Node>)
      requires Valid()
      modifies this`pos
      ensures Valid() && |Rest()| <= |old(Rest())|
      ensures Agrees(line, r, ParsePipe(old(Rest())), Rest())
      decreases |line| - pos, 2
    {
      hide AfterToken, NextToken, Peek, Skip, SpanOk, ParseExec;
      r := Parseexec();
      if r.Bad? {
        return;
      }
      Skipped(Rest(), "|");
      PeekToken(Rest(), "|");
      var more := Peeks("|");
      if more {
        var tok, sp := Gettoken();
        var right := Parsepipe();
        if right.Bad? {
          return right;
        }
        r := Good(PipeNode(r.value, right.value));
      }
    }

    method Parsebacks(n: Node) returns (n': Node)
      requires Valid() && NodeOk(line, n)
      modifies this`pos
      ensures Valid() && |Rest()| <= |old(Rest())| && NodeOk(line, n')
      ensures (Text(line, n'), Rest()) == ParseBacks(Text(line, n), old(Rest()))
    {
      hide AfterToken, NextToken, Peek, Skip, SpanOk;
      n' := n;
      Skipped(Rest(), "&");
      var more := Peeks("&");
      while more
        invariant Valid() && |Rest()| <= |old(Rest())| && NodeOk(line, n')
        invariant Skip(Rest()) == Rest() && more == Peek(Rest(), "&")
        invariant ParseBacks(Text(line, n'), Rest()) == ParseBacks(Text(line, n), old(Rest()))
        decreases |Rest()|
      {
        PeekToken(Rest(), "&");
        var tok, sp := Gettoken();
        n' := BackNode(n');
        Skipped(Rest(), "&");
        more := Peeks("&");
      }
    }

    method Parseline() returns (r: Parsed<Node>)
      requires Valid()
      modifies this`pos
      ensures Valid() && |Rest()| <= |old(Rest())|
      ensures Agrees(line, r, ParseLine(old(Rest())), Rest())
      decreases |line| - pos, 3
    {
      hide AfterToken, NextToken, Peek, Skip, SpanOk, ParsePipe, ParseBacks;
      r := Parsepipe();
      if r.Bad? {
        return;
      }
      var n := Parsebacks(r.value);
      Skipped(Rest(), ";");
      PeekToken(Rest(), ";");
      var more := Peeks(";");
      if more {
        var tok, sp := Gettoken();
        var right := Parseline();
        if right.Bad? {
          return right;
        }
        return Good(ListNode(n, right.value));
      }
      return Good(n);
    }

    // The whole line.
    method Parsecmd() returns (r: Parsed<Node>)
      requires pos == 0
      modifies this`pos
      ensures Valid() && Agrees(line, r, ParseCmd(line), "")
    {
      assert Rest() == line;
      r := Parseline();
      if r.Bad? {
        return;
      }
      var any := Peeks("");
      if pos != |line| {
        return Bad(Leftovers);
      }
    }
  }

  lemma AtEndOfLine(s: string)
    requires NextToken(s).End?
    ensures Skip(s) == "" && AfterToken(s) == ""
  {
  }

  lemma Skipped(s: string, toks: string)
    ensures Skip(Skip(s)) == Skip(s) && NextToken(Skip(s)) == NextToken(s) && AfterToken(Skip(s)) == AfterToken(s)
    ensures Peek(Skip(s), toks) == Peek(s, toks)
    ensures forall rs :: ParseRedirs(rs, Skip(s)) == ParseRedirs(rs, s)
    ensures forall c :: ParseBacks(c, Skip(s)) == ParseBacks(c, s)
    ensures |Skip(s)| <= |s|
  {
    PeekAt(Skip(s), toks);
  }

  // Something that is peeked at is a token.
  lemma PeekToken(s: string, toks: string)
    ensures |AfterToken(s)| <= |s|
    ensures Peek(s, toks) || !NextToken(s).End? ==> |AfterToken(s)| < |s|
  {
  }

  lemma TokenSpan(line: string, q: nat, eq: nat, start: string)
    requires q <= eq <= |line| && start == line[q..] && eq == q + WordLength(start) && start != ""
             && IsWordChar(start[0])
    ensures SpanOk(line, Span(q, eq))
  {
    WordLengthWord(start);
    forall i | q <= i < eq ensures IsWordChar(line[i]) {
      assert line[i] == start[i - q];
    }
    if eq < |line| {
      assert line[eq] == start[eq - q];
    }
  }

  // ---------- terminating the words in place ----------

  const NUL: char := '\0'

  // The positions after the words of a command.
  function Ends(n: Node): set<int>
  {
    match n
    case ExecNode(argv) => set i | 0 <= i < |argv| :: argv[i].eq
    case RedirectedNode(c, r) => Ends(c) + {r.file.eq}
    case PipeNode(l, r) => Ends(l) + Ends(r)
    case ListNode(l, r) => Ends(l) + Ends(r)
    case BackNode(c) => Ends(c)
  }

  ghost predicate EndsBelow(n: Node, len: int)
  {
    forall e :: e in Ends(n) ==> 0 <= e < len
  }

  lemma PartsBelow(n: Node, part: Node, len: int)
    requires EndsBelow(n, len) && Ends(part) <= Ends(n)
    ensures EndsBelow(part, len)
  {
  }

  method Nulterminate(n: Node, buf: array<char>)
    requires EndsBelow(n, buf.Length)
    modifies buf
    ensures forall i :: 0 <= i < buf.Length ==> buf[i] == if i in Ends(n) then NUL else old(buf[i])
    decreases n
  {
    match n
    case ExecNode(argv) =>
      var i := 0;
      while i < |argv|
        invariant 0 <= i <= |argv|
        invariant forall k :: 0 <= k < buf.Length ==>
                    buf[k] == if exists j :: 0 <= j < i && argv[j].eq == k then NUL else old(buf[k])
      {
        assert argv[i].eq in Ends(n);
        buf[argv[i].eq] := NUL;
        i := i + 1;
      }
    case RedirectedNode(c, r) =>
      assert Ends(c) <= Ends(n) && r.file.eq in Ends(n);
      PartsBelow(n, c, buf.Length);
      Nulterminate(c, buf);
      buf[r.file.eq] := NUL;
    case PipeNode(l, r) =>
      PartsBelow(n, l, buf.Length);
      PartsBelow(n, r, buf.Length);
      Nulterminate(l, buf);
      Nulterminate(r, buf);
    case ListNode(l, r) =>
      PartsBelow(n, l, buf.Length);
      PartsBelow(n, r, buf.Length);
      Nulterminate(l, buf);
      Nulterminate(r, buf);
    case BackNode(c) =>
      PartsBelow(n, c, buf.Length);
      Nulterminate(c, buf);
  }

  // The C string at p.
  function CString(buf: string, p: nat): string
    decreases |buf| - p
  {
    if p >= |buf| || buf[p] == NUL then "" else [buf[p]] + CString(buf, p + 1)
  }

  function CAt(buf: string, p: int): string
  {
    if p < 0 then "" else CString(buf, p)
  }

  // The command read from the buffer, each word as the C string at its start.
  function CText(buf: string, n: Node): Cmd
  {
    match n
    case ExecNode(argv) => Exec(seq(|argv|, i requires 0 <= i < |argv| => CAt(buf, argv[i].q)))
    case RedirectedNode(c, r) => Redirected(CText(buf, c), Redir(CAt(buf, r.file.q), r.out))
    case PipeNode(l, r) => Pipe(CText(buf, l), CText(buf, r))
    case ListNode(l, r) => List(CText(buf, l), CText(buf, r))
    case BackNode(c) => Back(CText(buf, c))
  }

  // buf is the line with its NUL, except at positions that no word uses; word ends in ends are NUL.
  ghost predicate TerminatedAt(line: string, buf: string, ends: set<int>, i: int)
  {
    0 <= i <= |line| == |buf| - 1 ==>
      && (i < |line| && IsWordChar(line[i]) ==> buf[i] == line[i])
      && (i in ends ==> buf[i] == NUL)
  }

  ghost predicate Terminated(line: string, buf: string, ends: set<int>)
  {
    |buf| == |line| + 1 && forall i :: TerminatedAt(line, buf, ends, i)
  }

  lemma {:induction false} StringIs(line: string, buf: string, ends: set<int>, p: nat, sp: Span)
    requires Terminated(line, buf, ends) && NUL !in line && SpanOk(line, sp) && sp.eq in ends && sp.q <= p <= sp.eq
    ensures CString(buf, p) == line[p..sp.eq]
    decreases sp.eq - p
  {
    assert TerminatedAt(line, buf, ends, p);
    if p < sp.eq {
      assert line[p] in line;
      StringIs(line, buf, ends, p + 1, sp);
    }
  }

  lemma {:induction false} TextIs(line: string, buf: string, ends: set<int>, n: Node)
    requires Terminated(line, buf, ends) && NUL !in line && NodeOk(line, n) && Ends(n) <= ends
    ensures CText(buf, n) == Text(line, n)
    decreases n
  {
    match n
    case ExecNode(argv) =>
      forall i | 0 <= i < |argv| ensures CAt(buf, argv[i].q) == Sub(line, argv[i]) {
        assert argv[i].eq in Ends(n);
        StringIs(line, buf, ends, argv[i].q, argv[i]);
      }
    case RedirectedNode(c, r) =>
      TextIs(line, buf, ends, c);
      assert r.file.eq in Ends(n);
      StringIs(line, buf, ends, r.file.q, r.file);
    case PipeNode(l, r) =>
      TextIs(line, buf, ends, l);
      TextIs(line, buf, ends, r);
    case ListNode(l, r) =>
      TextIs(line, buf, ends, l);
      TextIs(line, buf, ends, r);
    case BackNode(c) => TextIs(line, buf, ends, c);
  }

  // The end of a word lies on no word: a NUL written there is written over a separator.
  lemma {:induction false} EndsOutside(line: string, n: Node, e: int)
    requires NodeOk(line, n) && e in Ends(n)
    ensures 0 <= e <= |line| && (e < |line| ==> !IsWordChar(line[e]))
    decreases n
  {
    match n
    case ExecNode(argv) =>
      var i :| 0 <= i < |argv| && argv[i].eq == e;
      assert SpanOk(line, argv[i]);
    case RedirectedNode(c, r) => if e in Ends(c) { EndsOutside(line, c, e); }
    case PipeNode(l, r) => if e in Ends(l) { EndsOutside(line, l, e); } else { EndsOutside(line, r, e); }
    case ListNode(l, r) => if e in Ends(l) { EndsOutside(line, l, e); } else { EndsOutside(line, r, e); }
    case BackNode(c) => EndsOutside(line, c, e);
  }

  // parsecmd: the words of the command, read as C strings from the buffer, are its tokens.
  method ParseLineIn(buf: array<char>) returns (r: Parsed<Node>)
    requires buf.Length > 0 && buf[buf.Length - 1] == NUL && NUL !in buf[..buf.Length - 1]
    modifies buf
    ensures var spec := ParseCmd(old(buf[..buf.Length - 1]));
            if spec.Err? then r == Bad(spec.panic) else r.Good? && CText(buf[..], r.value) == spec.value
  {
    var line := buf[..buf.Length - 1];
    var parser := new Parser(line);
    r := parser.Parsecmd();
    if r.Good? {
      forall e | e in Ends(r.value) ensures 0 <= e < buf.Length && (e < |line| ==> !IsWordChar(line[e])) {
        EndsOutside(line, r.value, e);
      }
      Nulterminate(r.value, buf);
      ghost var after, ends := buf[..], Ends(r.value);
      forall i ensures TerminatedAt(line, after, ends, i) {
      }
      TextIs(line, after, ends, r.value);
    }
  }
}
