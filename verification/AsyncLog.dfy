/**
  The asynchronous log writer: any number of writers, a bounded channel, one consumer, and a
  synchronous fallback when the channel is full or closed. A log entry is the whole byte slice of
  one Write; what reaches the output is the sequence of entries written under the output lock.
*/
module AsyncLog {
  import opened Basics

  datatype Entry = Entry(bytes: seq<char>)

  type Tid = nat

  // Where a Write is: about to read the closed flag, about to try the channel, or on the direct path.
  datatype Writer =
    | Checking(entry: Entry)
    | Sending(entry: Entry)
    | Direct(entry: Entry)
    | WriterDone

  // Where Close is: not called, flag set, channel closed and waiting, returned.
  datatype Closer = NotClosing | FlagSet | Waiting | CloseReturned

  datatype World = World(
    queue: seq<Entry>,          // the channel buffer
    hand: Option<Entry>,        // what the consumer has received and not yet written
    output: seq<Entry>,         // written entries, in order
    closed: bool,               // the flag under mu
    chanClosed: bool,
    consumerDone: bool,
    writers: map<Tid, Writer>,
    closer: Closer,
    panicked: bool)             // a send on a closed channel

  datatype Step =
    | Write(tid: Tid, entry: Entry)    // a Write call begins
    | Proceed(tid: Tid, parked: bool)  // it takes its next step; parked: the consumer waits at the channel
    | Receive                          // the consumer takes the front of the channel
    | Emit                             // the consumer writes what it holds
    | Drained                          // the consumer finds the channel closed and empty
    | Close
    | CloseChannel
    | CloseReturn

  function Init(): World {
    World([], None, [], false, false, false, map[], NotClosing, false)
  }

  predicate Enabled(w: World, s: Step) {
    !w.panicked &&
    match s
    case Write(tid, _) => tid !in w.writers
    case Proceed(tid, parked) =>
      && tid in w.writers && !w.writers[tid].WriterDone?
      && (parked ==> w.queue == [] && w.hand.None? && !w.consumerDone)
    case Receive => w.hand.None? && w.queue != [] && !w.consumerDone
    case Emit => w.hand.Some?
    case Drained => w.hand.None? && w.queue == [] && w.chanClosed && !w.consumerDone
    case Close => w.closer.NotClosing?
    case CloseChannel => w.closer.FlagSet?
    case CloseReturn => w.closer.Waiting? && w.consumerDone
  }

  // A send succeeds while the buffer has room, or hands over directly to a waiting consumer.
  predicate HasRoom(cap: nat, w: World, parked: bool) {
    |w.queue| < cap || parked
  }

  function Next(cap: nat, w: World, s: Step): World
    requires Enabled(w, s)
  {
    match s
    case Write(tid, entry) => w.(writers := w.writers[tid := Checking(entry)])
    case Proceed(tid, parked) => (
      match w.writers[tid]
      case Checking(e) => w.(writers := w.writers[tid := if w.closed then Direct(e) else Sending(e)])
      case Sending(e) =>
        if w.chanClosed then w.(panicked := true)
        else if HasRoom(cap, w, parked) then w.(queue := w.queue + [e], writers := w.writers[tid := WriterDone])
        else w.(writers := w.writers[tid := Direct(e)])
      case Direct(e) => w.(output := w.output + [e], writers := w.writers[tid := WriterDone])
      case WriterDone => w
    )
    case Receive => w.(hand := Some(w.queue[0]), queue := w.queue[1..])
    case Emit => w.(output := w.output + [w.hand.value], hand := None)
    case Drained => w.(consumerDone := true)
    case Close => w.(closed := true, closer := FlagSet)
    case CloseChannel => w.(chanClosed := true, closer := Waiting)
    case CloseReturn => w.(closer := CloseReturned)
  }

  ghost predicate IsRun(cap: nat, run: seq<Step>)
    decreases run, 0
  {
    run == [] || (IsRun(cap, run[..|run| - 1]) && Enabled(After(cap, run[..|run| - 1]), run[|run| - 1]))
  }

  ghost function After(cap: nat, run: seq<Step>): World
    requires IsRun(cap, run)
    decreases run, 1
  {
    if run == [] then Init() else Next(cap, After(cap, run[..|run| - 1]), run[|run| - 1])
  }

  ghost predicate NoWriterActive(w: World) {
    forall t :: t in w.writers ==> w.writers[t].WriterDone?
  }

  // No Write is between reading the flag and trying the channel.
  ghost predicate NoneSending(w: World) {
    forall t :: t in w.writers ==> !w.writers[t].Sending?
  }

  // In the run, Close begins with no Write between reading the flag and trying the channel.
  ghost predicate ClearClose(cap: nat, run: seq<Step>)
    requires IsRun(cap, run)
  {
    run == [] ||
    (ClearClose(cap, run[..|run| - 1]) && (run[|run| - 1].Close? ==> NoneSending(After(cap, run[..|run| - 1]))))
  }

  // In the run, Close begins with no Write under way; Writes may begin at any time after that.
  ghost predicate QuietClose(cap: nat, run: seq<Step>)
    requires IsRun(cap, run)
  {
    run == [] ||
    (QuietClose(cap, run[..|run| - 1]) && (run[|run| - 1].Close? ==> NoWriterActive(After(cap, run[..|run| - 1]))))
  }

  // ---------- Where each entry is ----------

  // The entries of all Write calls so far.
  function Accepted(run: seq<Step>): multiset<Entry> {
    if run == [] then multiset{}
    else Accepted(run[..|run| - 1]) + match run[|run| - 1] case Write(_, e) => multiset{e} case _ => multiset{}
  }

  function PendingOf(p: Writer): multiset<Entry> {
    if p.WriterDone? then multiset{} else multiset{p.entry}
  }

  // The entries still in the hands of their writers, the synchronous fallback included.
  ghost function Pending(writers: map<Tid, Writer>): multiset<Entry> {
    if writers == map[] then multiset{}
    else
      var t: Tid :| t in writers;
      PendingOf(writers[t]) + Pending(writers - {t})
  }

  function Held(hand: Option<Entry>): seq<Entry> {
    if hand.Some? then [hand.value] else []
  }

  lemma SwapFirst(a: multiset<Entry>, b: multiset<Entry>, c: multiset<Entry>)
    ensures a + (b + c) == b + (a + c)
  {
  }

  lemma {:induction false} PendingWithout(writers: map<Tid, Writer>, t: Tid)
    requires t in writers
    ensures Pending(writers) == PendingOf(writers[t]) + Pending(writers - {t})
    decreases |writers|
  {
    hide PendingOf;
    var u: Tid :| u in writers && Pending(writers) == PendingOf(writers[u]) + Pending(writers - {u});
    if u != t {
      PendingWithout(writers - {u}, t);
      PendingWithout(writers - {t}, u);
      assert writers - {u} - {t} == writers - {t} - {u};
      SwapFirst(PendingOf(writers[u]), PendingOf(writers[t]), Pending(writers - {u} - {t}));
    }
  }

  lemma PendingUpdate(writers: map<Tid, Writer>, t: Tid, p: Writer)
    ensures t in writers ==>
              Pending(writers[t := p]) + PendingOf(writers[t]) == Pending(writers) + PendingOf(p)
    ensures t !in writers ==> Pending(writers[t := p]) == Pending(writers) + PendingOf(p)
  {
    hide PendingOf, Pending;
    var after := writers[t := p];
    PendingWithout(after, t);
    assert after - {t} == writers - {t};
    if t in writers {
      PendingWithout(writers, t);
    } else {
      assert writers - {t} == writers;
    }
  }

  lemma {:induction false} NothingPending(w: World)
    requires NoWriterActive(w)
    ensures Pending(w.writers) == multiset{}
    decreases |w.writers|
  {
    if w.writers != map[] {
      var u: Tid :| u in w.writers && Pending(w.writers) == PendingOf(w.writers[u]) + Pending(w.writers - {u});
      NothingPending(w.(writers := w.writers - {u}));
    }
  }

  ghost function Everywhere(w: World): multiset<Entry> {
    multiset(w.output) + multiset(Held(w.hand)) + multiset(w.queue) + Pending(w.writers)
  }

  lemma Cancel(a: multiset<Entry>, b: multiset<Entry>, x: multiset<Entry>)
    requires a + x == b + x
    ensures a == b
  {
    assert a == (a + x) - x && b == (b + x) - x;
  }

  // An entry leaves its writer for the output or for the channel.
  lemma HandOver(written: multiset<Entry>, held: multiset<Entry>, queued: multiset<Entry>,
                 pending: multiset<Entry>, x: multiset<Entry>)
    ensures (written + x) + held + queued + pending == written + held + queued + (pending + x)
    ensures written + held + (queued + x) + pending == written + held + queued + (pending + x)
  {
  }

  // A step of writer t holding e leaves it holding e, or without it: then e has been written or sent.
  ghost predicate Moves(w: World, w': World, t: Tid, e: Entry, p: Writer) {
    && w'.writers == w.writers[t := p] && w'.hand == w.hand
    && if !p.WriterDone? then p.entry == e && w'.output == w.output && w'.queue == w.queue
       else (w'.output == w.output + [e] && w'.queue == w.queue) ||
            (w'.output == w.output && w'.queue == w.queue + [e])
  }

  lemma WriterMoves(cap: nat, w: World, s: Step)
    requires Enabled(w, s) && s.Proceed? && !Next(cap, w, s).panicked
    ensures s.tid in w.writers && !w.writers[s.tid].WriterDone? && s.tid in Next(cap, w, s).writers
    ensures Moves(w, Next(cap, w, s), s.tid, w.writers[s.tid].entry, Next(cap, w, s).writers[s.tid])
  {
    hide HasRoom;
  }

  lemma PendingIs(p: Writer)
    ensures PendingOf(p) == if p.WriterDone? then multiset{} else multiset{p.entry}
  {
  }

  lemma WriterStep(cap: nat, w: World, s: Step)
    requires Enabled(w, s) && s.Proceed? && !Next(cap, w, s).panicked
    ensures Everywhere(Next(cap, w, s)) == Everywhere(w)
  {
    hide Pending, Next, PendingOf, Held;
    WriterMoves(cap, w, s);
    var w', x := Next(cap, w, s), multiset{w.writers[s.tid].entry};
    var p := w'.writers[s.tid];
    PendingIs(p);
    PendingIs(w.writers[s.tid]);
    PendingUpdate(w.writers, s.tid, p);
    if p.WriterDone? {
      assert Pending(w.writers) == Pending(w'.writers) + x;
      HandOver(multiset(w.output), multiset(Held(w.hand)), multiset(w.queue), Pending(w'.writers), x);
    } else {
      Cancel(Pending(w'.writers), Pending(w.writers), x);
    }
  }

  lemma EverywhereStep(cap: nat, w: World, s: Step)
    requires Enabled(w, s) && !Next(cap, w, s).panicked
    ensures Everywhere(Next(cap, w, s)) == Everywhere(w) + if s.Write? then multiset{s.entry} else multiset{}
  {
    hide Pending;
    if s.Write? {
      PendingUpdate(w.writers, s.tid, Checking(s.entry));
    } else if s.Proceed? {
      WriterStep(cap, w, s);
    } else if s.Receive? {
      assert w.queue == [w.queue[0]] + w.queue[1..];
    }
  }

  /** Unless a send hits a closed channel: accepted entries are exactly those written, in the
      consumer's hand, queued, or still with their writers; none is lost, doubled or torn. */
  lemma {:induction false} NothingIsLost(cap: nat, run: seq<Step>)
    requires IsRun(cap, run) && !After(cap, run).panicked
    ensures Accepted(run) == Everywhere(After(cap, run))
  {
    if run == [] {
      assert Everywhere(Init()) == multiset{};
    } else {
      NothingIsLost(cap, run[..|run| - 1]);
      EverywhereStep(cap, After(cap, run[..|run| - 1]), run[|run| - 1]);
    }
  }

  // ---------- Channel order ----------

  predicate SendsNow(cap: nat, w: World, s: Step) {
    s.Proceed? && s.tid in w.writers && w.writers[s.tid].Sending? && !w.chanClosed && HasRoom(cap, w, s.parked)
  }

  // The entries sent on the channel, in send order.
  ghost function Sent(cap: nat, run: seq<Step>): seq<Entry>
    requires IsRun(cap, run)
  {
    if run == [] then []
    else
      var w, s := After(cap, run[..|run| - 1]), run[|run| - 1];
      Sent(cap, run[..|run| - 1]) + if SendsNow(cap, w, s) then [w.writers[s.tid].entry] else []
  }

  // The entries the consumer has written, in the order it wrote them.
  ghost function Emitted(cap: nat, run: seq<Step>): seq<Entry>
    requires IsRun(cap, run)
  {
    if run == [] then []
    else
      var w := After(cap, run[..|run| - 1]);
      Emitted(cap, run[..|run| - 1]) + if run[|run| - 1].Emit? then [w.hand.value] else []
  }

  // A step takes the front of the channel, or writes what the consumer holds, or sends, or leaves all three alone.
  lemma ChannelMoves(cap: nat, w: World, s: Step)
    requires Enabled(w, s)
    ensures var w' := Next(cap, w, s);
            if s.Receive? then w.hand == None && w.queue != [] && w'.hand == Some(w.queue[0])
                && w'.queue == w.queue[1..]
            else if s.Emit? then w.hand.Some? && w'.hand == None && w'.queue == w.queue
            else w'.hand == w.hand && w'.queue == w.queue + if SendsNow(cap, w, s) then [w.writers[s.tid].entry] else []
  {
  }

  lemma FifoStep(cap: nat, w: World, s: Step, sent: seq<Entry>, emitted: seq<Entry>)
    requires Enabled(w, s) && sent == emitted + Held(w.hand) + w.queue
    ensures var w' := Next(cap, w, s);
            sent + (if SendsNow(cap, w, s) then [w.writers[s.tid].entry] else []) ==
            emitted + (if s.Emit? then [w.hand.value] else []) + Held(w'.hand) + w'.queue
  {
    ChannelMoves(cap, w, s);
    hide Next;
    if s.Receive? {
      assert w.queue == [w.queue[0]] + w.queue[1..];
    }
  }

  /** Channel entries come out in send order: what was sent is what the consumer wrote, then what it
      holds, then what is queued. */
  lemma {:induction false} ChannelIsFifo(cap: nat, run: seq<Step>)
    requires IsRun(cap, run)
    ensures Sent(cap, run) == Emitted(cap, run) + Held(After(cap, run).hand) + After(cap, run).queue
  {
    if run != [] {
      hide Next, SendsNow, Held;
      var front := run[..|run| - 1];
      ChannelIsFifo(cap, front);
      FifoStep(cap, After(cap, front), run[|run| - 1], Sent(cap, front), Emitted(cap, front));
    }
  }

  // What a step writes: the consumer what it holds, a direct Write its own entry.
  function Writes(w: World, s: Step): seq<Entry>
    requires Enabled(w, s)
  {
    if s.Emit? then [w.hand.value]
    else if s.Proceed? && w.writers[s.tid].Direct? then [w.writers[s.tid].entry]
    else []
  }

  // The entries written, in the order of the run.
  ghost function Written(cap: nat, run: seq<Step>): seq<Entry>
    requires IsRun(cap, run)
  {
    if run == [] then [] else Written(cap, run[..|run| - 1]) + Writes(After(cap, run[..|run| - 1]), run[|run| - 1])
  }

  lemma OutputStep(cap: nat, w: World, s: Step)
    requires Enabled(w, s)
    ensures Next(cap, w, s).output == w.output + Writes(w, s)
  {
    hide HasRoom;
  }

  /** The output holds the entries in the order they were written. */
  lemma {:induction false} OutputIsInOrder(cap: nat, run: seq<Step>)
    requires IsRun(cap, run)
    ensures After(cap, run).output == Written(cap, run)
  {
    if run != [] {
      hide Next, Enabled, Writes;
      OutputIsInOrder(cap, run[..|run| - 1]);
      OutputStep(cap, After(cap, run[..|run| - 1]), run[|run| - 1]);
    }
  }

  // ---------- Closing ----------

  ghost predicate CloseInv(w: World) {
    && (w.closed <==> !w.closer.NotClosing?)
    && (w.chanClosed <==> w.closer.Waiting? || w.closer.CloseReturned?)
    && (w.consumerDone ==> w.chanClosed && w.queue == [] && w.hand.None?)
    && (w.closer.CloseReturned? ==> w.consumerDone)
    && (w.closed ==> NoneSending(w))
    && !w.panicked
  }

  lemma CloseInvStep(cap: nat, w: World, s: Step)
    requires CloseInv(w) && Enabled(w, s) && (s.Close? ==> NoneSending(w))
    ensures CloseInv(Next(cap, w, s))
  {
  }

  /** If Close begins with no Write about to send, no send ever meets a closed channel. */
  lemma {:induction false} ClearCloseNeverPanics(cap: nat, run: seq<Step>)
    requires IsRun(cap, run) && ClearClose(cap, run)
    ensures CloseInv(After(cap, run)) && !After(cap, run).panicked
  {
    if run != [] {
      ClearCloseNeverPanics(cap, run[..|run| - 1]);
      CloseInvStep(cap, After(cap, run[..|run| - 1]), run[|run| - 1]);
    }
  }

  // What is true of the closing sequence as long as nothing has panicked.
  ghost predicate Draining(w: World) {
    && (w.chanClosed <==> w.closer.Waiting? || w.closer.CloseReturned?)
    && (w.consumerDone ==> w.chanClosed && w.queue == [] && w.hand.None?)
    && (w.closer.CloseReturned? ==> w.consumerDone)
  }

  lemma DrainingStep(cap: nat, w: World, s: Step)
    requires Draining(w) && Enabled(w, s) && !Next(cap, w, s).panicked
    ensures Draining(Next(cap, w, s))
  {
  }

  lemma {:induction false} UnpanickedDrains(cap: nat, run: seq<Step>)
    requires IsRun(cap, run) && !After(cap, run).panicked
    ensures Draining(After(cap, run))
  {
    if run != [] {
      UnpanickedDrains(cap, run[..|run| - 1]);
      DrainingStep(cap, After(cap, run[..|run| - 1]), run[|run| - 1]);
    }
  }

  /** Unless a send hits a closed channel: when Close has returned, every entry accepted so far has been
      written exactly once and whole, but for those of direct Writes that are still running. */
  lemma CloseFlushesEverything(cap: nat, run: seq<Step>)
    requires IsRun(cap, run) && !After(cap, run).panicked && After(cap, run).closer.CloseReturned?
    ensures Accepted(run) == multiset(After(cap, run).output) + Pending(After(cap, run).writers)
    ensures NoWriterActive(After(cap, run)) ==> Accepted(run) == multiset(After(cap, run).output)
  {
    UnpanickedDrains(cap, run);
    NothingIsLost(cap, run);
    if NoWriterActive(After(cap, run)) {
      NothingPending(After(cap, run));
    }
  }

  /** In particular if Close begins with no Write under way, whatever Writes begin while it runs. */
  lemma {:induction false} QuietCloseIsClear(cap: nat, run: seq<Step>)
    requires IsRun(cap, run) && QuietClose(cap, run)
    ensures ClearClose(cap, run)
  {
    if run != [] {
      QuietCloseIsClear(cap, run[..|run| - 1]);
    }
  }

  lemma RunStep(cap: nat, run: seq<Step>, s: Step)
    requires IsRun(cap, run) && Enabled(After(cap, run), s)
    ensures IsRun(cap, run + [s]) && After(cap, run + [s]) == Next(cap, After(cap, run), s)
  {
    assert (run + [s])[..|run|] == run;
  }

  lemma LastStep(cap: nat, run: seq<Step>, s: Step)
    requires IsRun(cap, run + [s])
    ensures IsRun(cap, run) && Enabled(After(cap, run), s)
    ensures After(cap, run + [s]) == Next(cap, After(cap, run), s)
  {
    assert (run + [s])[..|run|] == run;
  }

  // Before Close is called the invariant needs no condition.
  lemma {:induction false} OpenInv(cap: nat, run: seq<Step>)
    requires IsRun(cap, run) && After(cap, run).closer.NotClosing? && !After(cap, run).panicked
    ensures CloseInv(After(cap, run))
  {
    if run != [] {
      var w, s := After(cap, run[..|run| - 1]), run[|run| - 1];
      assert w.closer.NotClosing? && !w.panicked && !s.Close?;
      OpenInv(cap, run[..|run| - 1]);
      CloseInvStep(cap, w, s);
    }
  }

  // No run that went on from a clear Close has panicked.
  lemma {:induction false} AfterClearClose(cap: nat, run: seq<Step>, more: seq<Step>)
    requires IsRun(cap, run) && After(cap, run).closer.NotClosing? && !After(cap, run).panicked
    requires NoneSending(After(cap, run)) && IsRun(cap, run + [Close] + more)
    ensures CloseInv(After(cap, run + [Close] + more)) && !After(cap, run + [Close] + more).closer.NotClosing?
    decreases |more|
  {
    hide IsRun, After;
    if more == [] {
      OpenInv(cap, run);
      assert run + [Close] + more == run + [Close];
      LastStep(cap, run, Close);
      CloseInvStep(cap, After(cap, run), Close);
    } else {
      var front, s := more[..|more| - 1], more[|more| - 1];
      assert run + [Close] + more == (run + [Close] + front) + [s];
      LastStep(cap, run + [Close] + front, s);
      AfterClearClose(cap, run, front);
      CloseInvStep(cap, After(cap, run + [Close] + front), s);
    }
  }

  /** From wherever a Write is about to send, closing the channel first makes that send panic. */
  lemma SendUnderWayCanPanic(cap: nat, run: seq<Step>, t: Tid)
    requires IsRun(cap, run) && After(cap, run).closer.NotClosing? && !After(cap, run).panicked
    requires t in After(cap, run).writers && After(cap, run).writers[t].Sending?
    ensures IsRun(cap, run + [Close] + [CloseChannel, Proceed(t, false)])
    ensures After(cap, run + [Close] + [CloseChannel, Proceed(t, false)]).panicked
  {
    hide IsRun, After;
    RunStep(cap, run, Close);
    RunStep(cap, run + [Close], CloseChannel);
    RunStep(cap, run + [Close] + [CloseChannel], Proceed(t, false));
    assert run + [Close] + [CloseChannel] + [Proceed(t, false)] == run + [Close] + [CloseChannel, Proceed(t, false)];
  }

  /** Calling Close is safe, whatever happens afterwards, if and only if no Write is about to send. */
  lemma CloseIsSafeIffNoneSending(cap: nat, run: seq<Step>)
    requires IsRun(cap, run) && After(cap, run).closer.NotClosing? && !After(cap, run).panicked
    ensures NoneSending(After(cap, run)) <==>
            forall more: seq<Step> :: IsRun(cap, run + [Close] + more) ==> !After(cap, run + [Close] + more).panicked
  {
    hide IsRun, After;
    if NoneSending(After(cap, run)) {
      forall more: seq<Step> | IsRun(cap, run + [Close] + more) ensures !After(cap, run + [Close] + more).panicked {
        AfterClearClose(cap, run, more);
      }
    } else {
      var t :| t in After(cap, run).writers && After(cap, run).writers[t].Sending?;
      SendUnderWayCanPanic(cap, run, t);
    }
  }

  /** So at any capacity a Write that reads the flag before Close sets it can panic. */
  lemma OverlapCanPanic(cap: nat, e: Entry) returns (run: seq<Step>)
    ensures IsRun(cap, run) && After(cap, run).panicked
    ensures run == [Write(0, e), Proceed(0, false), Close, CloseChannel, Proceed(0, false)]
  {
    hide IsRun, After;
    assert IsRun(cap, []) && After(cap, []) == Init() by { EmptyRun(cap); }
    RunStep(cap, [], Write(0, e));
    run := [] + [Write(0, e)];
    RunStep(cap, run, Proceed(0, false));
    run := run + [Proceed(0, false)];
    SendUnderWayCanPanic(cap, run, 0);
    run := run + [Close] + [CloseChannel, Proceed(0, false)];
  }

  lemma EmptyRun(cap: nat)
    ensures IsRun(cap, []) && After(cap, []) == Init()
  {
  }

  // ---------- When a Write is queued ----------

  lemma BoundStep(cap: nat, w: World, s: Step)
    requires Enabled(w, s) && |w.queue| <= Max(cap, 1)
    ensures |Next(cap, w, s).queue| <= Max(cap, 1)
  {
  }

  /** The channel never holds more than its capacity; one of capacity 0 only what is being handed over. */
  lemma {:induction false} QueueIsBounded(cap: nat, run: seq<Step>)
    requires IsRun(cap, run)
    ensures |After(cap, run).queue| <= Max(cap, 1)
  {
    if run != [] {
      hide Next, Enabled;
      QueueIsBounded(cap, run[..|run| - 1]);
      BoundStep(cap, After(cap, run[..|run| - 1]), run[|run| - 1]);
    }
  }

  // The step has t read the flag after Close has set it, or try a channel that is full and not being read.
  ghost predicate TurnsAway(cap: nat, w: World, s: Step, t: Tid) {
    && s.Proceed? && s.tid == t && t in w.writers
    && if w.writers[t].Checking? then !w.closer.NotClosing?
       else w.writers[t].Sending? && |w.queue| >= cap && !s.parked
  }

  ghost predicate TurnedAway(cap: nat, run: seq<Step>, t: Tid)
    requires IsRun(cap, run)
  {
    run != [] &&
    (TurnedAway(cap, run[..|run| - 1], t) || TurnsAway(cap, After(cap, run[..|run| - 1]), run[|run| - 1], t))
  }

  // Where a Write is that has been turned away, or not.
  ghost predicate FitsTurn(w: World, t: Tid, away: bool, sent: bool) {
    if t !in w.writers then !away && !sent
    else
      match w.writers[t]
      case Checking(_) => !away && !sent
      case Sending(_) => !away && !sent
      case Direct(_) => away && !sent
      case WriterDone => away != sent
  }

  ghost predicate WasSent(cap: nat, run: seq<Step>, t: Tid)
    requires IsRun(cap, run)
  {
    run != [] && (WasSent(cap, run[..|run| - 1], t) || SendsOf(cap, After(cap, run[..|run| - 1]), run[|run| - 1], t))
  }

  predicate SendsOf(cap: nat, w: World, s: Step, t: Tid) {
    s.Proceed? && s.tid == t && SendsNow(cap, w, s)
  }

  lemma TurnStep(cap: nat, w: World, s: Step, t: Tid, away: bool, sent: bool)
    requires Enabled(w, s) && FitsTurn(w, t, away, sent) && (w.closed <==> !w.closer.NotClosing?)
    requires !Next(cap, w, s).panicked
    ensures FitsTurn(Next(cap, w, s), t, away || TurnsAway(cap, w, s, t), sent || SendsOf(cap, w, s, t))
  {
  }

  /** A Write takes the direct path if and only if it looked after Close was called or found the channel full and
      not being read; otherwise its entry is sent on the channel. */
  lemma {:induction false} DirectIffTurnedAway(cap: nat, run: seq<Step>, t: Tid)
    requires IsRun(cap, run) && !After(cap, run).panicked
    ensures FitsTurn(After(cap, run), t, TurnedAway(cap, run, t), WasSent(cap, run, t))
  {
    if run != [] {
      hide Next, Enabled, FitsTurn, TurnsAway, SendsOf;
      var front, s := run[..|run| - 1], run[|run| - 1];
      NotPanickedBefore(cap, After(cap, front), s);
      DirectIffTurnedAway(cap, front, t);
      ClosedOnceCalled(cap, front);
      TurnStep(cap, After(cap, front), s, t, TurnedAway(cap, front, t), WasSent(cap, front, t));
    }
  }

  lemma NotPanickedBefore(cap: nat, w: World, s: Step)
    requires Enabled(w, s)
    ensures !w.panicked
  {
  }

  lemma FlagStep(cap: nat, w: World, s: Step)
    requires Enabled(w, s) && (w.closed <==> !w.closer.NotClosing?)
    ensures Next(cap, w, s).closed <==> !Next(cap, w, s).closer.NotClosing?
  {
  }

  lemma {:induction false} ClosedOnceCalled(cap: nat, run: seq<Step>)
    requires IsRun(cap, run)
    ensures After(cap, run).closed <==> !After(cap, run).closer.NotClosing?
  {
    if run != [] {
      hide Next, Enabled;
      ClosedOnceCalled(cap, run[..|run| - 1]);
      FlagStep(cap, After(cap, run[..|run| - 1]), run[|run| - 1]);
    }
  }

  // ---------- Progress ----------

  // All Writes have returned, and Close too if it was called.
  ghost predicate Settled(w: World) {
    NoWriterActive(w) && (w.closer.NotClosing? || w.closer.CloseReturned?)
  }

  // A Write is about to send on a closed channel.
  ghost predicate Doomed(w: World) {
    w.chanClosed && !NoneSending(w)
  }

  // Some continuation with no new call settles without a panic.
  ghost predicate CanSettle(cap: nat, run: seq<Step>)
    requires IsRun(cap, run)
  {
    exists more: seq<Step> :: IsRun(cap, run + more) && NoNewCall(more) && Settled(After(cap, run + more))
                              && !After(cap, run + more).panicked
  }

  predicate NoNewCall(steps: seq<Step>) {
    forall s :: s in steps ==> !s.Write? && !s.Close?
  }

  function WriterRank(p: Writer): nat {
    match p
    case Checking(_) => 6
    case Sending(_) => 5
    case Direct(_) => 1
    case WriterDone => 0
  }

  // How many steps the consumer and Close are from their ends, at most.
  function DrainRank(w: World): nat {
    2 * |w.queue| + (if w.hand.Some? then 1 else 0) + (if w.consumerDone then 0 else 1)
    + match w.closer case FlagSet => 2 case Waiting => 1 case _ => 0
  }

  ghost function Rank(w: World): nat {
    Total(WriterRank, w.writers) + DrainRank(w)
  }

  // A Write that is under way goes on, unless it is doomed.
  lemma WriterCanGo(cap: nat, w: World, t: Tid)
    requires Draining(w) && (w.closed <==> !w.closer.NotClosing?) && !w.panicked && !Doomed(w)
    requires t in w.writers && !w.writers[t].WriterDone?
    ensures Enabled(w, Proceed(t, false))
    ensures var w' := Next(cap, w, Proceed(t, false)); !w'.panicked && !Doomed(w') && Rank(w') < Rank(w)
  {
    hide HasRoom;
    TotalUpdate(WriterRank, w.writers, t, Next(cap, w, Proceed(t, false)).writers[t]);
  }

  // With no Write under way, the next step of Close or of the consumer.
  function CloserStep(w: World): Step {
    if w.closer.FlagSet? then CloseChannel
    else if w.hand.Some? then Emit
    else if w.queue != [] then Receive
    else if !w.consumerDone then Drained
    else CloseReturn
  }

  lemma CloserCanGo(cap: nat, w: World)
    requires Draining(w) && !w.panicked && NoWriterActive(w) && (w.closer.FlagSet? || w.closer.Waiting?)
    ensures Enabled(w, CloserStep(w)) && !CloserStep(w).Write? && !CloserStep(w).Close?
    ensures var w' := Next(cap, w, CloserStep(w)); !w'.panicked && !Doomed(w') && Rank(w') < Rank(w)
  {
    hide Total;
  }

  lemma {:induction false} UndoomedSettles(cap: nat, run: seq<Step>) returns (more: seq<Step>)
    requires IsRun(cap, run) && !After(cap, run).panicked && !Doomed(After(cap, run))
    ensures IsRun(cap, run + more) && NoNewCall(more)
    ensures Settled(After(cap, run + more)) && !After(cap, run + more).panicked
    decreases Rank(After(cap, run))
  {
    hide IsRun, After, Next, Enabled, Rank, Doomed, Draining;
    var w := After(cap, run);
    if Settled(w) {
      more := [];
      assert run + more == run;
    } else {
      UnpanickedDrains(cap, run);
      ClosedOnceCalled(cap, run);
      var s;
      if NoWriterActive(w) {
        s := CloserStep(w);
        CloserCanGo(cap, w);
      } else {
        var t :| t in w.writers && !w.writers[t].WriterDone?;
        s := Proceed(t, false);
        WriterCanGo(cap, w, t);
      }
      RunStep(cap, run, s);
      var rest := UndoomedSettles(cap, run + [s]);
      more := [s] + rest;
      assert run + more == run + [s] + rest;
    }
  }

  lemma {:induction false} DoomedStays(cap: nat, run: seq<Step>, more: seq<Step>)
    requires IsRun(cap, run) && Doomed(After(cap, run)) && IsRun(cap, run + more)
    ensures Doomed(After(cap, run + more)) || After(cap, run + more).panicked
    decreases |more|
  {
    hide IsRun, After;
    if more == [] {
      assert run + more == run;
    } else {
      var front, s := more[..|more| - 1], more[|more| - 1];
      assert run + more == (run + front) + [s];
      LastStep(cap, run + front, s);
      DoomedStays(cap, run, front);
      DoomedStep(cap, After(cap, run + front), s);
    }
  }

  lemma DoomedStep(cap: nat, w: World, s: Step)
    requires Enabled(w, s) && Doomed(w)
    ensures Doomed(Next(cap, w, s)) || Next(cap, w, s).panicked
  {
    var t :| t in w.writers && w.writers[t].Sending?;
    assert (s.Proceed? && s.tid == t) || Next(cap, w, s).writers[t] == w.writers[t];
  }

  /** No deadlock: from every run without a panic, all Writes can return, and Close if it was called, with
      no panic, if and only if no Write is about to send on a closed channel. */
  lemma CanSettleIffNotDoomed(cap: nat, run: seq<Step>)
    requires IsRun(cap, run) && !After(cap, run).panicked
    ensures CanSettle(cap, run) <==> !Doomed(After(cap, run))
  {
    hide IsRun, After;
    if Doomed(After(cap, run)) {
      forall more: seq<Step> | IsRun(cap, run + more)
        ensures !Settled(After(cap, run + more)) || After(cap, run + more).panicked
      {
        DoomedStays(cap, run, more);
      }
    } else {
      var more := UndoomedSettles(cap, run);
    }
  }
}
