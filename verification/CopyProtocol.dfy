/** Sender, receiver and the two byte channels between them, step by step. */
module CopyProtocol {
  import opened Paths
  import opened Files
  import opened Wire
  import opened TreeCopy

  /** Waiting: blocked in `receive_ack` with these messages still to send.
      SenderCut: `receive_ack` found the connection closed; whatever is still
      sent reaches nobody. */
  datatype Sender = Waiting(rest: seq<string>) | Sending(rest: seq<string>) | SenderDone | SenderCut | SenderFailed

  datatype System = System(sender: Sender, data: string, ack: string, recv: Receiver, fs: FS)

  datatype Action = Send | TakeAck | TakeText | TakeBytes(n: nat) | Hangup

  /** The receiver announces itself with an ack, and the sender waits for it. */
  function Initial(script: seq<string>, fs: FS): System {
    System(Waiting(script), "", ACK, AwaitDest, fs)
  }

  predicate Enabled(y: System, a: Action) {
    match a
    case Send => y.sender.Sending? && y.sender.rest != []
    case TakeAck => y.sender.Waiting? && y.ack != ""
    case TakeText => AtText(y.recv) && y.data != ""
    case TakeBytes(n) => y.recv.InFile? && Wf(y.recv) && 1 <= n <= |y.data| && |y.recv.chunk| + n <= ToReceive(y.recv)
    case Hangup => y.sender.Waiting? && y.ack == "" && y.recv == Finished
  }

  /** A `recv` of text takes what is there, up to its buffer. */
  function TextLength(data: string): nat {
    if |data| < BUFFER_SIZE then |data| else BUFFER_SIZE - 1
  }

  function Arrived(y: System, n: nat, d: Delivery): System
    requires n <= |y.data|
  {
    y.(data := y.data[n..], ack := y.ack + (if d.acked then ACK else ""), recv := d.recv, fs := d.fs)
  }

  function Next(strip: bool, y: System, a: Action): System
    requires Enabled(y, a)
  {
    match a
    case Send =>
      var rest := y.sender.rest[1..];
      y.(data := y.data + y.sender.rest[0], sender := if rest == [] then SenderDone else Waiting(rest))
    case TakeAck =>
      y.(ack := "", sender := if y.ack == ACK then Sending(y.sender.rest) else SenderFailed)
    case TakeText =>
      var n := TextLength(y.data);
      Arrived(y, n, OnText(strip, y.recv, y.fs, y.data[..n]))
    case TakeBytes(n) => Arrived(y, n, OnBytes(y.recv, y.fs, y.data[..n]))
    case Hangup => y.(sender := SenderCut, data := "")
  }

  /** The receiver as it stood when the message in flight began. */
  function Start(r: Receiver): Receiver {
    if r.InFile? then r.(chunk := "") else r
  }

  /** The whole message in flight: what has been collected and what is to come. */
  function InFlight(r: Receiver, data: string): string {
    if r.InFile? then r.chunk + data else data
  }

  predicate AtBoundary(r: Receiver) {
    r.InFile? ==> r.chunk == ""
  }

  /** How a transfer comes out, whether or not every operation succeeded. */
  function Fate(o: Outcome): Outcome {
    if o.Ends? then Ends(o.fs, true) else o
  }

  /** The sender waits for an answer that will not come. */
  predicate Jammed(y: System) {
    y.sender.Waiting? && y.sender.rest != [] && y.ack == "" && y.recv.AwaitHeader? && |y.data| < 4
  }

  /** The receiver took content for the end marker and is gone. */
  predicate CutOff(y: System) {
    y.sender.Waiting? && y.ack == "" && y.recv == Finished && |y.data| < 4
  }

  /** The transfer has gone astray, as the goal says. */
  predicate Lost(y: System, goal: Outcome) {
    (Jammed(y) && goal == Jam(y.fs)) || (CutOff(y) && goal == Cut(y.fs))
  }

  /** The invariant: nothing in flight, or one message, or one ack; and the
      messages to come lead the receiver to the fate `goal`. */
  predicate Good(strip: bool, y: System, goal: Outcome) {
    && Wf(y.recv) && goal != Unknown
    && match y.sender
       case Sending(msgs) =>
         y.data == "" && y.ack == "" && AtBoundary(y.recv) && Fate(Follow(strip, y.recv, y.fs, msgs)) == goal
       case Waiting(rest) =>
         if Lost(y, goal) then true
         else if y.data == "" then
           y.ack == ACK && AtBoundary(y.recv) && Fate(Follow(strip, y.recv, y.fs, rest)) == goal
         else
           && y.ack == "" && rest != []
           && Fate(Follow(strip, Start(y.recv), y.fs, [InFlight(y.recv, y.data)] + rest)) == goal
       case SenderDone =>
         if y.data == "" then y.ack == "" && y.recv == Finished && goal == Ends(y.fs, true)
         else y.ack == "" && Fate(Follow(strip, Start(y.recv), y.fs, [InFlight(y.recv, y.data)])) == goal
       case SenderCut => y.data == "" && y.ack == "" && y.recv == Finished && goal == Cut(y.fs)
       case SenderFailed => false
  }

  /** Stop and wait: at most one message or ack is outstanding, and no ack has
      merged with another. */
  lemma {:induction false} OneOutstanding(strip: bool, y: System, goal: Outcome)
    requires Good(strip, y, goal)
    ensures y.data == "" || y.ack == ""
    ensures y.ack in {"", ACK} && |y.data| <= BUFFER_SIZE
    ensures y.sender != SenderFailed && y.recv != Broken
  {
    if y.data != "" && !Lost(y, goal) {
      FlightFits(strip, y, goal);
    }
  }

  /** What is known of a message in flight when it is about to be taken: it gets
      no answer and the transfer goes astray, or it is delivered as the script has it. */
  lemma {:induction false} FlightFits(strip: bool, y: System, goal: Outcome)
    requires Good(strip, y, goal) && y.data != "" && !Lost(y, goal)
    ensures (y.sender.Waiting? && y.sender.rest != []) || y.sender.SenderDone?
    ensures y.ack == ""
    ensures var msg, r := InFlight(y.recv, y.data), Start(y.recv);
            if y.sender.Waiting? && Stray(r, msg) then goal == Astray(y.fs, msg)
            else
              && Fits(r, msg)
              && var d := Deliver(strip, r, y.fs, msg);
              if y.sender.SenderDone? then d.recv == Finished && !d.acked && goal == Ends(d.fs, true)
              else d.acked && Fate(Follow(strip, d.recv, d.fs, y.sender.rest)) == goal
  {
    var msg, r := InFlight(y.recv, y.data), Start(y.recv);
    if y.sender.Waiting? {
      assert ([msg] + y.sender.rest)[1..] == y.sender.rest;
      assert |[msg] + y.sender.rest| > 1;
    }
  }

  lemma {:induction false} SendKeeps(strip: bool, y: System, goal: Outcome)
    requires Good(strip, y, goal) && Enabled(y, Send)
    ensures Good(strip, Next(strip, y, Send), goal)
  {
    var msgs := y.sender.rest;
    assert msgs == [msgs[0]] + msgs[1..];
    assert "" + msgs[0] == msgs[0];
    assert Start(y.recv) == y.recv;
    assert |msgs| == 1 ==> msgs == [msgs[0]];
    FirstNonempty(strip, y.recv, y.fs, msgs);
  }

  lemma {:induction false} FirstNonempty(strip: bool, r: Receiver, fs: FS, msgs: seq<string>)
    requires Follow(strip, r, fs, msgs) != Unknown
    ensures msgs != [] && msgs[0] != ""
  {
  }

  /** Taking a message that gets no answer. */
  lemma {:induction false} StrayIsLost(strip: bool, y: System)
    requires y.sender.Waiting? && y.sender.rest != [] && y.ack == "" && Stray(y.recv, y.data)
    ensures Lost(Next(strip, y, TakeText), Astray(y.fs, y.data))
  {
    var n := TextLength(y.data);
    var msg := y.data[..n];
    assert msg <= y.data;
    assert !Announces(msg) && (Closes(msg) <==> Closes(y.data));
    assert |y.data[n..]| <= 1;
  }

  lemma {:induction false} LostStays(strip: bool, y: System, goal: Outcome)
    requires Lost(y, goal) && Enabled(y, TakeText)
    ensures Lost(Next(strip, y, TakeText), goal)
  {
    assert y.data[..|y.data|] == y.data && y.data[|y.data|..] == "";
  }

  lemma {:induction false} TextKeeps(strip: bool, y: System, goal: Outcome)
    requires Good(strip, y, goal) && Enabled(y, TakeText)
    ensures Good(strip, Next(strip, y, TakeText), goal)
  {
    if Lost(y, goal) {
      LostStays(strip, y, goal);
    } else {
      FlightFits(strip, y, goal);
      if y.sender.Waiting? && Stray(y.recv, y.data) {
        StrayIsLost(strip, y);
      } else {
        assert y.data[..|y.data|] == y.data && y.data[|y.data|..] == "";
        DeliverBoundary(strip, y.recv, y.fs, y.data);
        assert "" + ACK == ACK;
      }
    }
  }

  lemma {:induction false} DeliverBoundary(strip: bool, r: Receiver, fs: FS, msg: string)
    requires Fits(r, msg)
    ensures var d := Deliver(strip, r, fs, msg); Wf(d.recv) && AtBoundary(d.recv)
  {
  }

  /** A part of a chunk leaves the message in flight. */
  lemma {:induction false} PartInFlight(strip: bool, y: System, n: nat)
    requires Enabled(y, TakeBytes(n)) && |y.recv.chunk| + n < ToReceive(y.recv)
    ensures var y' := Next(strip, y, TakeBytes(n));
            && y'.recv == y.recv.(chunk := y.recv.chunk + y.data[..n]) && Wf(y'.recv)
            && y' == y.(data := y.data[n..], recv := y'.recv)
            && InFlight(y'.recv, y'.data) == InFlight(y.recv, y.data) && Start(y'.recv) == Start(y.recv)
  {
    assert y.data == y.data[..n] + y.data[n..];
    assert y.ack + "" == y.ack;
  }

  lemma {:induction false} PartKeeps(strip: bool, y: System, n: nat, goal: Outcome)
    requires Good(strip, y, goal) && Enabled(y, TakeBytes(n)) && |y.recv.chunk| + n < ToReceive(y.recv)
    ensures Good(strip, Next(strip, y, TakeBytes(n)), goal)
  {
    FlightFits(strip, y, goal);
    PartInFlight(strip, y, n);
  }

  /** The last part of a chunk is the delivery of the whole message. */
  lemma {:induction false} LastPart(strip: bool, y: System, n: nat)
    requires y.recv.InFile? && Wf(y.recv) && Enabled(y, TakeBytes(n)) && |y.recv.chunk| + n == ToReceive(y.recv)
    requires Fits(Start(y.recv), InFlight(y.recv, y.data))
    ensures n == |y.data|
    ensures Next(strip, y, TakeBytes(n)) ==
            Arrived(y, n, Deliver(strip, Start(y.recv), y.fs, InFlight(y.recv, y.data)))
  {
    var r, msg := Start(y.recv), InFlight(y.recv, y.data);
    assert y.data[..n] == y.data;
    assert r.chunk + msg == y.recv.chunk + y.data;
  }

  lemma {:induction false} ChunkKeeps(strip: bool, y: System, n: nat, goal: Outcome)
    requires Good(strip, y, goal) && Enabled(y, TakeBytes(n)) && |y.recv.chunk| + n == ToReceive(y.recv)
    ensures Good(strip, Next(strip, y, TakeBytes(n)), goal)
  {
    FlightFits(strip, y, goal);
    LastPart(strip, y, n);
    DeliverBoundary(strip, Start(y.recv), y.fs, InFlight(y.recv, y.data));
    assert y.data[n..] == "" && "" + ACK == ACK;
  }

  lemma {:induction false} StepKeeps(strip: bool, y: System, a: Action, goal: Outcome)
    requires Good(strip, y, goal) && Enabled(y, a)
    ensures Good(strip, Next(strip, y, a), goal)
  {
    match a
    case Send => SendKeeps(strip, y, goal);
    case TakeAck =>
    case TakeText => TextKeeps(strip, y, goal);
    case TakeBytes(n) =>
      if |y.recv.chunk| + n < ToReceive(y.recv) {
        PartKeeps(strip, y, n, goal);
      } else {
        ChunkKeeps(strip, y, n, goal);
      }
    case Hangup => HangupKeeps(strip, y, goal);
  }

  /** A receiver that is gone while the sender waits was cut off. */
  lemma {:induction false} HangupKeeps(strip: bool, y: System, goal: Outcome)
    requires Good(strip, y, goal) && Enabled(y, Hangup)
    ensures Good(strip, Next(strip, y, Hangup), goal)
  {
    if !Lost(y, goal) {
      FlightFits(strip, y, goal);
    }
  }

  /** Bytes still to travel, two steps per message still to be sent, and one for
      an ack that is waited for. */
  function Work(msgs: seq<string>): nat {
    if msgs == [] then 0 else |msgs[0]| + 2 + Work(msgs[1..])
  }

  function Rank(y: System): nat {
    |y.data| + match y.sender
               case Sending(msgs) => Work(msgs)
               case Waiting(rest) => Work(rest) + 1
               case SenderDone => 0
               case SenderCut => 0
               case SenderFailed => 0
  }

  /** Every step of every transfer, with or without conflicts, lowers the rank. */
  lemma {:induction false} RankDecreases(strip: bool, y: System, a: Action)
    requires Enabled(y, a)
    ensures Rank(Next(strip, y, a)) < Rank(y)
  {
  }

  predicate Complete(y: System) {
    y.sender == SenderDone && y.recv == Finished && y.data == "" && y.ack == ""
  }

  /** Until both ends have finished or given up, some step is possible, unless
      the transfer has jammed. */
  lemma {:induction false} NoDeadlock(strip: bool, y: System, goal: Outcome) returns (a: Action)
    requires Good(strip, y, goal) && !Complete(y) && !y.sender.SenderCut? && !(Jammed(y) && goal == Jam(y.fs))
    ensures Enabled(y, a)
  {
    if CutOff(y) {
      a := Hangup;
    } else if y.sender.Sending? {
      FirstNonempty(strip, y.recv, y.fs, y.sender.rest);
      a := Send;
    } else if y.data == "" {
      a := TakeAck;
    } else {
      FlightFits(strip, y, goal);
      a := if y.recv.InFile? then TakeBytes(1) else TakeText;
    }
  }

  /** A transfer that goes astray never completes. */
  lemma {:induction false} LostNeverCompletes(strip: bool, y: System, goal: Outcome)
    requires Good(strip, y, goal) && !goal.Ends?
    ensures !Complete(y)
  {
  }

  ghost predicate IsRun(strip: bool, y: System, run: seq<Action>)
    decreases |run|
  {
    run == [] || (Enabled(y, run[0]) && IsRun(strip, Next(strip, y, run[0]), run[1..]))
  }

  ghost function After(strip: bool, y: System, run: seq<Action>): System
    requires IsRun(strip, y, run)
    decreases |run|
  {
    if run == [] then y else After(strip, Next(strip, y, run[0]), run[1..])
  }

  /** Receiving these pieces one by one. */
  function Takes(parts: seq<string>): seq<Action> {
    if parts == [] then [] else [TakeBytes(|parts[0]|)] + Takes(parts[1..])
  }

  lemma {:induction false} NonEmptyParts(parts: seq<string>)
    requires parts != [] && parts[0] != ""
    ensures Flat(parts) != ""
  {
    assert |Flat(parts)| >= |parts[0]|;
  }

  lemma {:induction false} PartOfChunk(strip: bool, y: System, m: nat, n: nat)
    requires Enabled(y, TakeBytes(m + n)) && m >= 1 && n >= 1
    ensures Enabled(y, TakeBytes(m))
    ensures var chunk := y.recv.chunk + y.data[..m];
            Next(strip, y, TakeBytes(m)) == y.(data := y.data[m..], ack := y.ack + "", recv := y.recv.(chunk := chunk))
    ensures Enabled(Next(strip, y, TakeBytes(m)), TakeBytes(n))
  {
  }

  /** Two pieces of a chunk one after the other. */
  lemma {:induction false} TakeTwo(strip: bool, y: System, m: nat, n: nat)
    requires Enabled(y, TakeBytes(m + n)) && m >= 1 && n >= 1
    ensures Enabled(y, TakeBytes(m)) && Enabled(Next(strip, y, TakeBytes(m)), TakeBytes(n))
    ensures Next(strip, Next(strip, y, TakeBytes(m)), TakeBytes(n)) == Next(strip, y, TakeBytes(m + n))
  {
    PartOfChunk(strip, y, m, n);
    var t := Next(strip, y, TakeBytes(m));
    assert t.recv.chunk + t.data[..n] == y.recv.chunk + y.data[..m + n];
    assert t.data[n..] == y.data[m + n..];
    assert t.ack == y.ack;
  }

  /** However the bytes of a chunk are cut on the way, they can be received piece
      by piece, and that comes to the same as receiving them at once. */
  lemma {:induction false} CutAnyway(strip: bool, y: System, parts: seq<string>)
    requires y.data == Flat(parts) && Enabled(y, TakeBytes(|y.data|))
    requires parts != [] && forall k | 0 <= k < |parts| :: parts[k] != ""
    ensures IsRun(strip, y, Takes(parts)) && After(strip, y, Takes(parts)) == Next(strip, y, TakeBytes(|y.data|))
    decreases |parts|
  {
    var first, rest := parts[0], parts[1..];
    var run := Takes(parts);
    assert run[0] == TakeBytes(|first|) && run[1..] == Takes(rest);
    if rest != [] {
      NonEmptyParts(rest);
      PartOfChunk(strip, y, |first|, |Flat(rest)|);
      TakeTwo(strip, y, |first|, |Flat(rest)|);
      var t := Next(strip, y, TakeBytes(|first|));
      assert t.data == Flat(rest);
      CutAnyway(strip, t, rest);
    } else {
      assert y.data == first && run[1..] == [];
    }
  }

  /** Every run whatsoever is bounded. */
  lemma {:induction false} EveryRunEnds(strip: bool, y: System, run: seq<Action>)
    requires IsRun(strip, y, run)
    ensures |run| + Rank(After(strip, y, run)) <= Rank(y)
    decreases |run|
  {
    if run != [] {
      RankDecreases(strip, y, run[0]);
      EveryRunEnds(strip, Next(strip, y, run[0]), run[1..]);
    }
  }

  lemma {:induction false} RunKeeps(strip: bool, y: System, run: seq<Action>, goal: Outcome)
    requires Good(strip, y, goal) && IsRun(strip, y, run)
    ensures Good(strip, After(strip, y, run), goal)
    decreases |run|
  {
    if run != [] {
      StepKeeps(strip, y, run[0], goal);
      RunKeeps(strip, Next(strip, y, run[0]), run[1..], goal);
    }
  }

  /** What a caller can check before a copy: the texts fit, the tree is an
      ordinary one, and the destination folder is there or can be made. */
  predicate Copyable(base: string, rel: string, t: Tree, fs: FS) {
    && Speakable(base, rel, t) && Regular(t)
    && var fs1 := Mkdir(fs, Resolve(base));
    IsDir(fs1, Resolve(base)) && ParentIsDir(fs1, Resolve(base) + Resolve(rel))
  }

  /** `fs'` is `fs` with the tree at `at`: nothing else differs. */
  ghost predicate IsGraft(fs': FS, fs: FS, at: Path, t: Tree) {
    forall p :: Look(fs', p) == Grafted(fs, at, t, p)
  }

  lemma {:induction false} RunGood(strip: bool, base: string, rel: string, t: Tree, fs: FS, run: seq<Action>)
    requires Speakable(base, rel, t) && IsRun(strip, Initial(Script(base, rel, t), fs), run)
    requires Sent(Mkdir(fs, Resolve(base)), Resolve(base) + Resolve(rel), t) != Unknown
    ensures Good(strip, After(strip, Initial(Script(base, rel, t), fs), run),
                 Fate(Sent(Mkdir(fs, Resolve(base)), Resolve(base) + Resolve(rel), t)))
  {
    FollowScript(strip, base, rel, t, fs);
    RunKeeps(strip, Initial(Script(base, rel, t), fs), run,
             Fate(Sent(Mkdir(fs, Resolve(base)), Resolve(base) + Resolve(rel), t)));
  }

  /** What a completed transfer leaves. */
  lemma {:induction false} CompletedLeaves(strip: bool, base: string, rel: string, t: Tree, fs: FS, run: seq<Action>)
    requires Speakable(base, rel, t) && IsRun(strip, Initial(Script(base, rel, t), fs), run)
    requires Complete(After(strip, Initial(Script(base, rel, t), fs), run))
    requires Sent(Mkdir(fs, Resolve(base)), Resolve(base) + Resolve(rel), t) != Unknown
    ensures var o := Sent(Mkdir(fs, Resolve(base)), Resolve(base) + Resolve(rel), t);
            o.Ends? && After(strip, Initial(Script(base, rel, t), fs), run).fs == o.fs
  {
    RunGood(strip, base, rel, t, fs, run);
  }

  /** Every run of a conflict-free copy, however content is split: it is
      bounded, at most one message or ack is outstanding at any time, it can
      always be continued until both ends have finished, and then the
      destination is the old one with the tree grafted, path by path. */
  lemma {:induction false} CopyCorrect(strip: bool, base: string, rel: string, t: Tree, fs: FS, run: seq<Action>)
    requires Copyable(base, rel, t, fs)
    requires ConflictFree(Mkdir(fs, Resolve(base)), Resolve(base) + Resolve(rel), t)
    requires IsRun(strip, Initial(Script(base, rel, t), fs), run)
    ensures |run| <= Work(Script(base, rel, t)) + 1
    ensures var y := After(strip, Initial(Script(base, rel, t), fs), run);
            && (y.data == "" || y.ack == "") && y.ack in {"", ACK} && |y.data| <= BUFFER_SIZE
            && (Complete(y) || exists a :: Enabled(y, a))
            && (Complete(y) ==> IsGraft(y.fs, Mkdir(fs, Resolve(base)), Resolve(base) + Resolve(rel), t))
  {
    var fs1, at := Mkdir(fs, Resolve(base)), Resolve(base) + Resolve(rel);
    var start, goal := Initial(Script(base, rel, t), fs), Ends(Graft(fs1, at, t), true);
    SentIsGraft(fs1, at, t);
    RunGood(strip, base, rel, t, fs, run);
    EveryRunEnds(strip, start, run);
    var y := After(strip, start, run);
    OneOutstanding(strip, y, goal);
    if !Complete(y) {
      var a := NoDeadlock(strip, y, goal);
    }
    forall p
      ensures Look(goal.fs, p) == Grafted(fs1, at, t, p)
    {
      GraftMeaning(fs1, at, t, p);
    }
  }

  /** Every run that cannot be continued, conflict or not: both ends have
      finished, or the receiver closed the connection too early and the sender
      gave up, or the sender waits for ever. */
  lemma {:induction false} CopyFate(strip: bool, base: string, rel: string, t: Tree, fs: FS, run: seq<Action>)
    requires Speakable(base, rel, t) && IsRun(strip, Initial(Script(base, rel, t), fs), run)
    requires forall a :: !Enabled(After(strip, Initial(Script(base, rel, t), fs), run), a)
    requires Sent(Mkdir(fs, Resolve(base)), Resolve(base) + Resolve(rel), t) != Unknown
    ensures var y := After(strip, Initial(Script(base, rel, t), fs), run);
            var o := Sent(Mkdir(fs, Resolve(base)), Resolve(base) + Resolve(rel), t);
            && y.fs == o.fs && (Complete(y) <==> o.Ends?)
            && (y.sender.SenderCut? <==> o.Cut?) && (y.sender.Waiting? <==> o.Jam?)
  {
    var y := After(strip, Initial(Script(base, rel, t), fs), run);
    var goal := Fate(Sent(Mkdir(fs, Resolve(base)), Resolve(base) + Resolve(rel), t));
    RunGood(strip, base, rel, t, fs, run);
    if !Complete(y) && !y.sender.SenderCut? && !(Jammed(y) && goal == Jam(y.fs)) {
      var a := NoDeadlock(strip, y, goal);
      assert false;
    }
  }

  /** Nothing disappears, files stay files and folders stay folders. */
  ghost predicate KindsKept(fs: FS, fs': FS) {
    forall p | p in fs :: p in fs' && (fs'[p] == Dir <==> fs[p] == Dir)
  }

  lemma {:induction false} TextKeepsKinds(strip: bool, r: Receiver, fs: FS, msg: string)
    requires AtText(r)
    ensures KindsKept(fs, OnText(strip, r, fs, msg).fs)
  {
    match r
    case AwaitDest =>
    case AwaitHeader(base) => assert KindsKept(fs, OnHeader(strip, base, fs, msg).fs);
    case AwaitSize(base, path) => assert KindsKept(fs, OnSize(base, path, fs, msg).fs);
  }

  lemma {:induction false} StepKeepsKinds(strip: bool, y: System, a: Action)
    requires Enabled(y, a)
    ensures KindsKept(y.fs, Next(strip, y, a).fs)
  {
    match a
    case Send =>
    case TakeAck =>
    case TakeText => TextKeepsKinds(strip, y.recv, y.fs, y.data[..TextLength(y.data)]);
    case TakeBytes(n) =>
    case Hangup =>
  }

  lemma {:induction false} RunKeepsKinds(strip: bool, y: System, run: seq<Action>)
    requires IsRun(strip, y, run)
    ensures KindsKept(y.fs, After(strip, y, run).fs)
    decreases |run|
  {
    if run != [] {
      StepKeepsKinds(strip, y, run[0]);
      RunKeepsKinds(strip, Next(strip, y, run[0]), run[1..]);
    }
  }

  /** The condition is exact: a run that cannot be continued has made the copy
      if and only if there was no conflict beforehand. */
  lemma {:induction false} CopyExactly(strip: bool, base: string, rel: string, t: Tree, fs: FS, run: seq<Action>)
    requires Copyable(base, rel, t, fs) && Resolve(rel) != []
    requires IsRun(strip, Initial(Script(base, rel, t), fs), run)
    requires forall a :: !Enabled(After(strip, Initial(Script(base, rel, t), fs), run), a)
    ensures var fs1, at := Mkdir(fs, Resolve(base)), Resolve(base) + Resolve(rel);
            IsGraft(After(strip, Initial(Script(base, rel, t), fs), run).fs, fs1, at, t) <==> ConflictFree(fs1, at, t)
  {
    var fs1, at := Mkdir(fs, Resolve(base)), Resolve(base) + Resolve(rel);
    var y := After(strip, Initial(Script(base, rel, t), fs), run);
    if ConflictFree(fs1, at, t) {
      CopyCorrect(strip, base, rel, t, fs, run);
    }
    if IsGraft(y.fs, fs1, at, t) {
      RunKeepsKinds(strip, Initial(Script(base, rel, t), fs), run);
      GraftAgrees(y.fs, fs, base, rel, t);
      AgreesConflictFree(fs1, at, t);
    }
  }

  lemma {:induction false} GraftAgrees(fs': FS, fs: FS, base: string, rel: string, t: Tree)
    requires Resolve(rel) != [] && KindsKept(fs, fs')
    requires IsGraft(fs', Mkdir(fs, Resolve(base)), Resolve(base) + Resolve(rel), t)
    ensures Agrees(Mkdir(fs, Resolve(base)), Resolve(base) + Resolve(rel), t)
  {
    var fs1, at := Mkdir(fs, Resolve(base)), Resolve(base) + Resolve(rel);
    forall q | TreeAt(t, q).Some? && at + q in fs1
      ensures fs1[at + q] == Dir <==> TreeAt(t, q).value == Dir
    {
      var p := at + q;
      assert |p| > |Resolve(base)| && p[..|at|] == at && p[|at|..] == q;
      assert Look(fs', p) == TreeAt(t, q);
    }
  }
}
