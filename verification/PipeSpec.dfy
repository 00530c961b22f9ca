/**
  A pipe (pipe.c) as a step system. One step is what a process does to the pipe between taking
  its lock and releasing it, in sleep or for good; a process woken up takes another step.

  put is every byte ever written into the pipe, got every byte ever read out of it.
 */
module PipeSpec {
  const PIPESIZE: int := 512

  datatype State = State(put: seq<int>, got: seq<int>, readopen: bool, writeopen: bool,
                         onRead: set<int>, onWrite: set<int>)

  // What became of the call: it returned, returned -1, or went to sleep.
  datatype Fate = Done | Failed | Asleep

  datatype Op =
    | Write(pid: int, bytes: seq<int>, killed: bool)
    | Read(pid: int, n: nat, killed: bool)
    | Close(writable: bool)
    | Kill(pid: int)

  function Min(a: int, b: int): int
  {
    if a <= b then a else b
  }

  function InFlight(s: State): int
  {
    |s.put| - |s.got|
  }

  const Init: State := State([], [], true, true, {}, {})

  // How many of n bytes a writer puts in before the pipe is full.
  function Fits(s: State, n: nat): (k: nat)
    ensures k <= n
  {
    if InFlight(s) > PIPESIZE then 0 else Min(n, PIPESIZE - InFlight(s))
  }

  function WriteFate(s: State, bytes: seq<int>, killed: bool): Fate
  {
    if Fits(s, |bytes|) == |bytes| then Done else if !s.readopen || killed then Failed else Asleep
  }

  function WriteStep(s: State, pid: int, bytes: seq<int>, killed: bool): State
  {
    var s' := s.(put := s.put + bytes[..Fits(s, |bytes|)]);
    match WriteFate(s, bytes, killed)
    case Done => s'.(onRead := {})
    case Failed => s'
    case Asleep => s'.(onRead := {}, onWrite := s.onWrite + {pid})
  }

  function ReadFate(s: State, killed: bool): Fate
  {
    if InFlight(s) == 0 && s.writeopen then if killed then Failed else Asleep else Done
  }

  // The bytes a reader gets.
  function Taken(s: State, n: nat, killed: bool): seq<int>
  {
    if ReadFate(s, killed).Done? && 0 <= InFlight(s) then s.put[|s.got|..|s.got| + Min(n, InFlight(s))] else []
  }

  function ReadStep(s: State, pid: int, n: nat, killed: bool): State
  {
    match ReadFate(s, killed)
    case Done => s.(got := s.got + Taken(s, n, killed), onWrite := {})
    case Failed => s
    case Asleep => s.(onRead := s.onRead + {pid})
  }

  function CloseStep(s: State, writable: bool): State
  {
    if writable then s.(writeopen := false, onRead := {}) else s.(readopen := false, onWrite := {})
  }

  function KillStep(s: State, pid: int): State
  {
    s.(onRead := s.onRead - {pid}, onWrite := s.onWrite - {pid})
  }

  function Step(s: State, op: Op): State
  {
    match op
    case Write(pid, bytes, killed) => WriteStep(s, pid, bytes, killed)
    case Read(pid, n, killed) => ReadStep(s, pid, n, killed)
    case Close(writable) => CloseStep(s, writable)
    case Kill(pid) => KillStep(s, pid)
  }

  function Run(s: State, ops: seq<Op>): State
  {
    if ops == [] then s else Step(Run(s, ops[..|ops| - 1]), ops[|ops| - 1])
  }

  // The bytes come out in the order they went in, and at most PIPESIZE are on the way.
  ghost predicate Stream(s: State)
  {
    |s.got| <= |s.put| <= |s.got| + PIPESIZE && s.got == s.put[..|s.got|]
  }

  // A writer sleeps only for room, with somebody able to make it.
  ghost predicate WritersOk(s: State)
  {
    s.onWrite != {} ==> InFlight(s) == PIPESIZE && s.readopen
  }

  // A reader sleeps only for bytes, with somebody able to send them.
  ghost predicate ReadersOk(s: State)
  {
    s.onRead != {} ==> InFlight(s) == 0 && s.writeopen
  }

  lemma StepKeeps(s: State, op: Op)
    requires Stream(s) && WritersOk(s)
    ensures Stream(Step(s, op)) && WritersOk(Step(s, op))
  {
    match op
    case Write(_, bytes, killed) =>
      var k := Fits(s, |bytes|);
      assert (s.put + bytes[..k])[..|s.got|] == s.put[..|s.got|];
    case Read(_, n, killed) =>
      if ReadFate(s, killed).Done? {
        var m := Min(n, InFlight(s));
        assert s.put[..|s.got|] + s.put[|s.got|..|s.got| + m] == s.put[..|s.got| + m];
      }
    case Close(_) =>
    case Kill(_) =>
  }

  // A killed writer that fills an empty pipe on which readers sleep leaves without waking them.
  predicate Strands(s: State, op: Op)
  {
    op.Write? && (op.killed || !s.readopen) && |op.bytes| > PIPESIZE && s.onRead != {}
  }

  // Sleeping readers stay accounted for in exactly the other steps.
  lemma ReadersKept(s: State, op: Op)
    requires Stream(s) && WritersOk(s) && ReadersOk(s)
    ensures ReadersOk(Step(s, op)) <==> !Strands(s, op)
  {
    if op.Write? && s.onRead != {} {
      assert Fits(s, |op.bytes|) == Min(|op.bytes|, PIPESIZE);
    }
  }

  ghost predicate NeverStrands(s: State, ops: seq<Op>)
  {
    forall i :: 0 <= i < |ops| ==> !Strands(Run(s, ops[..i]), ops[i])
  }

  // The stream, over every run.
  lemma {:induction false} RunKeeps(ops: seq<Op>)
    ensures Stream(Run(Init, ops)) && WritersOk(Run(Init, ops))
  {
    if ops != [] {
      RunKeeps(ops[..|ops| - 1]);
      StepKeeps(Run(Init, ops[..|ops| - 1]), ops[|ops| - 1]);
    }
  }

  // Sleepers, over every run without such a writer.
  lemma {:induction false} RunReaders(ops: seq<Op>)
    requires NeverStrands(Init, ops)
    ensures ReadersOk(Run(Init, ops))
  {
    if ops != [] {
      var front := ops[..|ops| - 1];
      assert forall i :: 0 <= i < |front| ==> front[..i] == ops[..i] && front[i] == ops[i];
      RunReaders(front);
      RunKeeps(front);
      ReadersKept(Run(Init, front), ops[|ops| - 1]);
    }
  }

  // Then readers and writers never sleep at the same time.
  lemma NeverBothAsleep(ops: seq<Op>)
    requires NeverStrands(Init, ops)
    ensures Run(Init, ops).onRead == {} || Run(Init, ops).onWrite == {}
  {
    RunKeeps(ops);
    RunReaders(ops);
  }

  // In every run nobody is asleep at an end whose other end is closed: pipeclose frees a pipe
  // without sleepers.
  lemma {:induction false} FreedIdle(ops: seq<Op>)
    ensures var s := Run(Init, ops); (!s.writeopen ==> s.onRead == {}) && (!s.readopen ==> s.onWrite == {})
  {
    if ops != [] {
      FreedIdle(ops[..|ops| - 1]);
      RunKeeps(ops);
    }
  }

  // The calls of a process that has been killed.
  predicate Doomed(op: Op, pid: int)
  {
    (op.Write? || op.Read?) && op.pid == pid ==> op.killed
  }

  // A killed process does not sleep, and once it is killed no run of it and the others leaves it asleep.
  lemma {:induction false} KilledAwake(s: State, pid: int, ops: seq<Op>)
    requires forall i :: 0 <= i < |ops| ==> Doomed(ops[i], pid)
    ensures var s' := Run(Step(s, Kill(pid)), ops); pid !in s'.onRead && pid !in s'.onWrite
  {
    if ops != [] {
      KilledAwake(s, pid, ops[..|ops| - 1]);
      assert Doomed(ops[|ops| - 1], pid);
    }
  }

  // An end once closed stays closed; the other one is closed only by a close of its own.
  lemma {:induction false} EndsClosed(ops: seq<Op>)
    ensures Run(Init, ops).writeopen <==> Close(true) !in ops
    ensures Run(Init, ops).readopen <==> Close(false) !in ops
  {
    if ops != [] {
      EndsClosed(ops[..|ops| - 1]);
      assert ops == ops[..|ops| - 1] + [ops[|ops| - 1]];
    }
  }

  // So after the last writer has closed, a reader never sleeps: it gets what is left, then nothing.
  lemma EndOfFile(ops: seq<Op>, n: nat, killed: bool)
    requires Close(true) in ops
    ensures var s := Run(Init, ops);
            && ReadFate(s, killed).Done?
            && |Taken(s, n, killed)| == (if n <= |s.put| - |s.got| then n else |s.put| - |s.got|)
            && s.got + Taken(s, n, killed) == s.put[..|s.got| + |Taken(s, n, killed)|]
  {
    EndsClosed(ops);
    RunKeeps(ops);
    TakenIsNext(Run(Init, ops), n, killed);
  }

  // With such a writer a reader can be left asleep on a full pipe.
  lemma Stranded(reader: int, writer: int, bytes: seq<int>)
    requires |bytes| > PIPESIZE
    ensures var s := Run(Init, [Read(reader, 1, false), Write(writer, bytes, true)]);
            reader in s.onRead && InFlight(s) == PIPESIZE && !ReadersOk(s)
  {
    var ops := [Read(reader, 1, false), Write(writer, bytes, true)];
    assert ops[..1] == [Read(reader, 1, false)] && ops[..1][..0] == [];
    assert Run(Init, ops[..1]) == Step(Run(Init, ops[..1][..0]), ops[0]);
    assert Run(Init, ops) == Step(Run(Init, ops[..1]), ops[1]);
  }

  // What a reader is given is the next part of the stream: as much as it asked for, or all there is.
  lemma TakenIsNext(s: State, n: nat, killed: bool)
    requires Stream(s) && ReadFate(s, killed).Done?
    ensures |Taken(s, n, killed)| == if n <= |s.put| - |s.got| then n else |s.put| - |s.got|
    ensures s.got + Taken(s, n, killed) == s.put[..|s.got| + |Taken(s, n, killed)|]
    ensures n >= InFlight(s) ==> s.got + Taken(s, n, killed) == s.put
  {
    var m := Min(n, InFlight(s));
    assert s.put[..|s.got|] + s.put[|s.got|..|s.got| + m] == s.put[..|s.got| + m];
  }
}
