/**
  The crash-dump handshake as a transition system: any number of crashing processes, the
  browser's IO and FILE threads, and processes that send messages of their own making.
 */
module Handshake {
  import opened CrashHost

  /** One end of a socket pair of a crashing process, or some other descriptor. */
  datatype End = ReadEnd(owner: Pid) | WriteEnd(owner: Pid) | Foreign(id: nat)

  /** A header of the control data in flight; descriptors get their numbers on arrival. */
  datatype Header = EndRights(ends: seq<End>) | SenderCredentials(pid: Pid) | Unknown

  type Message = seq<Header>

  /** Where a crashing process is in `NonBrowserCrashHandler`. */
  datatype Phase = Paired | Sent | Waiting | GotByte | GotEof | GaveUp

  datatype State = State(
    crashers: map<Pid, Phase>,
    queue: seq<Message>,                         // the browser's end of the death-signal socket
    open: map<Fd, End>, closed: seq<Fd>, nextFd: Fd,
    fileTasks: seq<Task>, ioTasks: seq<Task>,    // posted WriteDumpFile and QueueCrashDumpTask
    dumped: set<Pid>,                            // processes for which WriteMinidump has returned
    answered: set<Pid>)                          // processes whose socket has received the byte 0x42

  const INIT := State(map[], [], map[], [], 0, [], [], {}, {})

  // -------------------------------------------------------------------------
  // Messages

  function RightsEnds(m: Message): seq<seq<End>> {
    if m == [] then [] else (if m[0].EndRights? then [m[0].ends] else []) + RightsEnds(m[1..])
  }

  function Ends(m: Message): seq<End> {
    Concat(RightsEnds(m))
  }

  /** What a crashing process sends: both ends of its socket pair. */
  predicate FromCrasher(m: Message, p: Pid) {
    RightsEnds(m) == [[ReadEnd(p), WriteEnd(p)]]
  }

  /** What another process may send: it holds no end of a crasher's socket pair. */
  predicate FromOther(m: Message) {
    |RightsEnds(m)| <= 1 && forall i :: 0 <= i < |Ends(m)| ==> Ends(m)[i].Foreign?
  }

  function Range(from: nat, n: nat): (r: seq<Fd>)
    ensures |r| == n && forall i :: 0 <= i < n ==> r[i] == from + i
  {
    seq(n, i => from + i)
  }

  /** The kernel installs the descriptors of a message under the next free numbers. */
  function Install(m: Message, next: Fd): seq<Cmsg> {
    if m == [] then []
    else
      match m[0]
      case EndRights(ends) => [Rights(Range(next, |ends|))] + Install(m[1..], next + |ends|)
      case SenderCredentials(pid) => [Credentials(pid)] + Install(m[1..], next)
      case Unknown => [OtherHeader] + Install(m[1..], next)
  }

  /** The process that holds the other end is the crasher, if the first descriptor is its read end. */
  ghost predicate HolderIsRight(m: Message, holder: Option<Pid>) {
    forall p :: FromCrasher(m, p) && holder.Some? ==> holder.value == p
  }

  // -------------------------------------------------------------------------
  // Steps

  datatype Action =
    | Crash(p: Pid) | Send(p: Pid, m: Message) | SendFails(p: Pid) | CloseSignal(p: Pid)
    | ReadByte(p: Pid) | ReadEof(p: Pid) | OtherSends(m: Message)
    | Receive(inodeOk: bool, holder: Option<Pid>) | WriteDump | Answer(delivered: bool)

  predicate IsHostAction(a: Action) {
    a.Receive? || a.WriteDump? || a.Answer?
  }

  predicate In(s: State, p: Pid, phase: Phase) {
    p in s.crashers && s.crashers[p] == phase
  }

  /** Somebody can still write to the socket of `p`. */
  ghost predicate HasWriter(s: State, p: Pid) {
    In(s, p, Paired) || In(s, p, Sent) ||
    (exists fd :: fd in s.open && s.open[fd] == WriteEnd(p)) ||
    (exists i :: 0 <= i < |s.queue| && WriteEnd(p) in Ends(s.queue[i]))
  }

  ghost predicate Enabled(s: State, a: Action) {
    match a
    case Crash(p) => p !in s.crashers
    case Send(p, m) => In(s, p, Paired) && FromCrasher(m, p)
    case SendFails(p) => In(s, p, Paired)
    case CloseSignal(p) => In(s, p, Sent)
    case ReadByte(p) => In(s, p, Waiting) && p in s.answered
    case ReadEof(p) => In(s, p, Waiting) && p !in s.answered && !HasWriter(s, p)
    case OtherSends(m) => FromOther(m)
    case Receive(_, holder) => s.queue != [] && HolderIsRight(s.queue[0], holder)
    case WriteDump => s.fileTasks != []
    case Answer(_) => s.ioTasks != [] && s.ioTasks[0].signal in s.open
  }

  ghost function Do(s: State, a: Action): State
    requires Enabled(s, a)
  {
    match a
    case Crash(p) => s.(crashers := s.crashers[p := Paired])
    case Send(p, m) => s.(crashers := s.crashers[p := Sent], queue := s.queue + [m])
    case SendFails(p) => s.(crashers := s.crashers[p := GaveUp])
    case CloseSignal(p) => s.(crashers := s.crashers[p := Waiting])
    case ReadByte(p) => s.(crashers := s.crashers[p := GotByte])
    case ReadEof(p) => s.(crashers := s.crashers[p := GotEof])
    case OtherSends(m) => s.(queue := s.queue + [m])
    case Receive(inodeOk, holder) => DoReceive(s, inodeOk, holder)
    case WriteDump =>
      var t := s.fileTasks[0];
      s.(fileTasks := s.fileTasks[1..], ioTasks := s.ioTasks + [t], dumped := s.dumped + {t.pid})
    case Answer(delivered) =>
      var t := s.ioTasks[0];
      var end := s.open[t.signal];
      s.(ioTasks := s.ioTasks[1..], open := s.open - {t.signal}, closed := s.closed + [t.signal],
         answered := if delivered && end.WriteEnd? then s.answered + {end.owner} else s.answered)
  }

  /** The new entries of the descriptor table. */
  function Received(m: Message, next: Fd): (r: map<Fd, End>)
    ensures r.Keys == FdSet(Range(next, |Ends(m)|))
  {
    map fd | fd in FdSet(Range(next, |Ends(m)|)) :: EndNumber(m, fd - next)
  }

  function EndNumber(m: Message, i: int): End {
    if 0 <= i < |Ends(m)| then Ends(m)[i] else Foreign(0)
  }

  /** The descriptors of a message are installed and the handler runs. */
  function DoReceive(s: State, inodeOk: bool, holder: Option<Pid>): State
    requires s.queue != []
  {
    var m := s.queue[0];
    var n := |Ends(m)|;
    var h := Handle(Install(m, s.nextFd), inodeOk, holder);
    s.(queue := s.queue[1..], open := (s.open + Received(m, s.nextFd)) - FdSet(h.closed), closed := s.closed + h.closed,
       nextFd := s.nextFd + n, fileTasks := s.fileTasks + if h.task.Some? then [h.task.value] else [])
  }

  /** A run: every action is enabled where it is taken. */
  ghost predicate IsRun(s: State, actions: seq<Action>)
    decreases |actions|
  {
    actions == [] || (Enabled(s, actions[0]) && IsRun(Do(s, actions[0]), actions[1..]))
  }

  ghost function After(s: State, actions: seq<Action>): State
    requires IsRun(s, actions)
    decreases |actions|
  {
    if actions == [] then s else After(Do(s, actions[0]), actions[1..])
  }

  // -------------------------------------------------------------------------
  // The invariant

  function Signals(ts: seq<Task>): (r: seq<Fd>)
    ensures |r| == |ts| && forall i :: 0 <= i < |ts| ==> r[i] == ts[i].signal
  {
    seq(|ts|, i requires 0 <= i < |ts| => ts[i].signal)
  }

  function Pending(s: State): seq<Fd> {
    Signals(s.fileTasks) + Signals(s.ioTasks)
  }

  /** Every descriptor ever received is closed once or held by one task, and the open ones are those of the tasks. */
  predicate Ledger(s: State) {
    Balanced(s.closed, Pending(s), s.nextFd, s.open.Keys)
  }

  predicate Balanced(closed: seq<Fd>, pending: seq<Fd>, next: Fd, open: set<Fd>) {
    multiset(closed + pending) == multiset(Range(0, next)) && open == FdSet(pending)
  }

  /** A task that answers a crasher is about that crasher. */
  predicate TaskIsRight(s: State, t: Task) {
    t.signal in s.open && (s.open[t.signal].WriteEnd? ==> t.pid == s.open[t.signal].owner)
  }

  predicate Tasks(s: State) {
    && (forall i :: 0 <= i < |s.fileTasks| ==> TaskIsRight(s, s.fileTasks[i]))
    && (forall i :: 0 <= i < |s.ioTasks| ==> TaskIsRight(s, s.ioTasks[i]) && s.ioTasks[i].pid in s.dumped)
  }

  ghost predicate Queue(s: State) {
    forall i :: 0 <= i < |s.queue| ==> FromOther(s.queue[i]) || exists p :: FromCrasher(s.queue[i], p)
  }

  predicate Answers(s: State) {
    s.answered <= s.dumped && forall p :: p in s.crashers && s.crashers[p] == GotByte ==> p in s.answered
  }

  ghost predicate Inv(s: State) {
    Ledger(s) && Tasks(s) && Queue(s) && Answers(s)
  }

  lemma EndsUnfold(m: Message)
    requires m != []
    ensures m[0].EndRights? ==>
            RightsEnds(m) == [m[0].ends] + RightsEnds(m[1..]) && Ends(m) == m[0].ends + Ends(m[1..])
    ensures !m[0].EndRights? ==> RightsEnds(m) == RightsEnds(m[1..]) && Ends(m) == Ends(m[1..])
  {
    if m[0].EndRights? {
      assert RightsEnds(m)[1..] == RightsEnds(m[1..]);
    }
  }

  lemma RangeSplit(from: nat, a: nat, b: nat)
    ensures Range(from, a + b) == Range(from, a) + Range(from + a, b)
  {
  }

  lemma InstallUnfold(m: Message, next: Fd)
    requires m != []
    ensures var ctrl := Install(m, next);
            var n := if m[0].EndRights? then |m[0].ends| else 0;
            ctrl != [] && ctrl[1..] == Install(m[1..], next + n) && (ctrl[0].Rights? <==> m[0].EndRights?) &&
            (ctrl[0].Rights? ==> ctrl[0].fds == Range(next, n))
  {
  }

  /** The descriptors arrive under consecutive numbers, in the order of the message. */
  lemma {:induction false} InstallShape(m: Message, next: Fd)
    ensures |RightsOf(Install(m, next))| == |RightsEnds(m)|
    ensures AllFds(Install(m, next)) == Range(next, |Ends(m)|)
  {
    hide AllFds, RightsOf, RightsEnds, Ends, Install;
    if m == [] {
      NothingInstalled(next);
    } else {
      var n := if m[0].EndRights? then |m[0].ends| else 0;
      EndsUnfold(m);
      InstallUnfold(m, next);
      RightsUnfold(Install(m, next));
      InstallShape(m[1..], next + n);
      RangeSplit(next, n, |Ends(m[1..])|);
    }
  }

  lemma NothingInstalled(next: Fd)
    ensures RightsOf(Install([], next)) == [] && RightsEnds([]) == [] && AllFds(Install([], next)) == Range(next, |Ends([])|)
  {
  }

  /** A message with at most one descriptor header: every new number is closed or handed to the task. */
  lemma ReceiveAccounts(m: Message, next: Fd, inodeOk: bool, holder: Option<Pid>)
    requires |RightsEnds(m)| <= 1
    ensures multiset(Accounted(Handle(Install(m, next), inodeOk, holder))) == multiset(Range(next, |Ends(m)|))
  {
    var ctrl := Install(m, next);
    InstallShape(m, next);
    HandlerAccountsExactly(ctrl, inodeOk, holder);
  }

  lemma RangeOnce(from: nat, n: nat)
    ensures forall fd: Fd :: multiset(Range(from, n))[fd] == if from <= fd < from + n then 1 else 0
    decreases n
  {
    if n > 0 {
      RangeOnce(from, n - 1);
      assert Range(from, n) == Range(from, n - 1) + [from + n - 1];
    } else {
      assert Range(from, 0) == [];
    }
  }

  // -------------------------------------------------------------------------
  // The browser's steps keep the ledger

  lemma FdSetConcat(a: seq<Fd>, b: seq<Fd>)
    ensures FdSet(a + b) == FdSet(a) + FdSet(b)
  {
    assert forall i :: 0 <= i < |a| ==> (a + b)[i] == a[i];
    assert forall i :: 0 <= i < |b| ==> (a + b)[|a| + i] == b[i];
  }

  lemma InFdSet(fds: seq<Fd>, fd: Fd)
    ensures fd in FdSet(fds) <==> fd in multiset(fds)
  {
    assert fd in multiset(fds) <==> fd in fds;
  }

  /** Two parts of a sequence without repetition have nothing in common. */
  lemma PartsApart(a: seq<Fd>, b: seq<Fd>, from: nat, n: nat)
    requires multiset(a) + multiset(b) == multiset(Range(from, n))
    ensures FdSet(a) !! FdSet(b) && FdSet(a) + FdSet(b) == FdSet(Range(from, n))
  {
    RangeOnce(from, n);
    var all := multiset(Range(from, n));
    assert all == multiset(a) + multiset(b);
    forall fd
      ensures !(fd in FdSet(a) && fd in FdSet(b))
      ensures fd in FdSet(a) || fd in FdSet(b) <==> fd in FdSet(Range(from, n))
    {
      InFdSet(a, fd);
      InFdSet(b, fd);
      InFdSet(Range(from, n), fd);
      assert all[fd] == multiset(a)[fd] + multiset(b)[fd];
    }
  }

  lemma SignalsConcat(a: seq<Task>, b: seq<Task>)
    ensures Signals(a + b) == Signals(a) + Signals(b)
  {
  }

  lemma MessageIsTidy(s: State, i: nat)
    requires Queue(s) && i < |s.queue|
    ensures |RightsEnds(s.queue[i])| <= 1
  {
  }

  lemma TaskComesFromHolder(ctrl: seq<Cmsg>, inodeOk: bool, holder: Option<Pid>)
    ensures var h := Handle(ctrl, inodeOk, holder);
            h.task.Some? ==> holder.Some? && h.task.value.pid == holder.value
  {
  }

  function TaskFds(task: Option<Task>): seq<Fd> {
    if task.Some? then [task.value.signal] else []
  }

  /** The descriptors a message brought, split into those closed and the one handed to a task. */
  lemma ReceivedSplit(s: State, inodeOk: bool, holder: Option<Pid>)
    requires Ledger(s) && Queue(s) && s.queue != []
    ensures var m := s.queue[0];
            var h := Handle(Install(m, s.nextFd), inodeOk, holder);
            var arrived, task := Range(s.nextFd, |Ends(m)|), TaskFds(h.task);
            multiset(h.closed) + multiset(task) == multiset(arrived) &&
            FdSet(h.closed) !! FdSet(task) && FdSet(h.closed) + FdSet(task) == FdSet(arrived) &&
            FdSet(Pending(s)) !! FdSet(arrived) && FdSet(s.closed) !! FdSet(arrived)
  {
    hide Handle, Install, Ends, Pending, FdSet;
    var m := s.queue[0];
    var h := Handle(Install(m, s.nextFd), inodeOk, holder);
    MessageIsTidy(s, 0);
    ReceiveAccounts(m, s.nextFd, inodeOk, holder);
    assert Accounted(h) == h.closed + TaskFds(h.task);
    PartsApart(h.closed, TaskFds(h.task), s.nextFd, |Ends(m)|);
    PartsApart(s.closed, Pending(s), 0, s.nextFd);
    forall fd
      ensures !(fd in FdSet(Range(0, s.nextFd)) && fd in FdSet(Range(s.nextFd, |Ends(m)|)))
    {
      InFdSet(Range(0, s.nextFd), fd);
      InFdSet(Range(s.nextFd, |Ends(m)|), fd);
      RangeOnce(0, s.nextFd);
      RangeOnce(s.nextFd, |Ends(m)|);
    }
  }

  lemma MergeKeys(file: seq<Fd>, io: seq<Fd>, closed: seq<Fd>, task: seq<Fd>, arrived: seq<Fd>)
    requires FdSet(closed) !! FdSet(task) && FdSet(closed) + FdSet(task) == FdSet(arrived)
    requires FdSet(file + io) !! FdSet(arrived)
    ensures (FdSet(file + io) + FdSet(arrived)) - FdSet(closed) == FdSet((file + task) + io)
  {
    FdSetConcat(file, io);
    FdSetConcat(file, task);
    FdSetConcat(file + task, io);
    hide FdSet;
  }

  /** Adding the descriptors of a message: some closed at once, the rest handed to a new task. */
  lemma BalancedReceive(closed: seq<Fd>, file: seq<Fd>, io: seq<Fd>, next: Fd, open: set<Fd>,
                        closed': seq<Fd>, task: seq<Fd>, n: nat)
    requires Balanced(closed, file + io, next, open)
    requires multiset(closed') + multiset(task) == multiset(Range(next, n))
    requires FdSet(closed') !! FdSet(task) && FdSet(closed') + FdSet(task) == FdSet(Range(next, n))
    requires FdSet(file + io) !! FdSet(Range(next, n))
    ensures Balanced(closed + closed', (file + task) + io, next + n, (open + FdSet(Range(next, n))) - FdSet(closed'))
  {
    hide FdSet;
    RangeSplit(0, next, n);
    MergeKeys(file, io, closed', task, Range(next, n));
    hide Range;
    assert multiset((closed + closed') + ((file + task) + io)) ==
           multiset(closed + (file + io)) + (multiset(closed') + multiset(task));
  }

  /** A task moves from the FILE thread to the IO thread. */
  lemma BalancedMove(closed: seq<Fd>, fd: Fd, file: seq<Fd>, io: seq<Fd>, next: Fd, open: set<Fd>)
    requires Balanced(closed, ([fd] + file) + io, next, open)
    ensures Balanced(closed, file + (io + [fd]), next, open)
  {
    FdSetConcat([fd] + file, io);
    FdSetConcat([fd], file);
    FdSetConcat(file, io + [fd]);
    FdSetConcat(io, [fd]);
    hide FdSet, Range;
    assert multiset(closed + (file + (io + [fd]))) == multiset(closed + (([fd] + file) + io));
  }

  /** A task is done with and its descriptor closed. */
  lemma BalancedClose(closed: seq<Fd>, fd: Fd, file: seq<Fd>, io: seq<Fd>, next: Fd, open: set<Fd>)
    requires Balanced(closed, file + ([fd] + io), next, open)
    ensures Balanced(closed + [fd], file + io, next, open - {fd}) && fd !in FdSet(file + io)
  {
    assert multiset((closed + [fd]) + (file + io)) == multiset(closed + (file + ([fd] + io)));
    FdSetConcat(file, [fd] + io);
    FdSetConcat([fd], io);
    FdSetConcat(file, io);
    FdSetConcat(closed, [fd]);
    OneOrTwo(fd, fd);
    PartsApart(closed + [fd], file + io, 0, next);
    hide FdSet, Range;
  }

  /** The parts of the ledger after a message. */
  lemma ReceiveShape(s: State, inodeOk: bool, holder: Option<Pid>)
    requires s.queue != []
    ensures var m, s' := s.queue[0], DoReceive(s, inodeOk, holder);
            var h := Handle(Install(m, s.nextFd), inodeOk, holder);
            s'.closed == s.closed + h.closed && s'.nextFd == s.nextFd + |Ends(m)| &&
            Pending(s') == (Signals(s.fileTasks) + TaskFds(h.task)) + Signals(s.ioTasks) &&
            s'.open.Keys == (s.open.Keys + FdSet(Range(s.nextFd, |Ends(m)|))) - FdSet(h.closed)
  {
    hide Handle, Install, Ends, FdSet, Signals, Received;
    var h := Handle(Install(s.queue[0], s.nextFd), inodeOk, holder);
    OneSignal(h.task);
    SignalsConcat(s.fileTasks, if h.task.Some? then [h.task.value] else []);
  }

  lemma ReceiveKeepsLedger(s: State, inodeOk: bool, holder: Option<Pid>)
    requires Ledger(s) && Queue(s) && s.queue != []
    ensures Ledger(DoReceive(s, inodeOk, holder))
  {
    hide Handle, Install, Ends, FdSet, RightsEnds, Signals, Received, DoReceive, Queue, Balanced;
    var h := Handle(Install(s.queue[0], s.nextFd), inodeOk, holder);
    ReceivedSplit(s, inodeOk, holder);
    ReceiveShape(s, inodeOk, holder);
    BalancedReceive(s.closed, Signals(s.fileTasks), Signals(s.ioTasks), s.nextFd, s.open.Keys,
                    h.closed, TaskFds(h.task), |Ends(s.queue[0])|);
  }

  lemma OneSignal(task: Option<Task>)
    ensures Signals(if task.Some? then [task.value] else []) == TaskFds(task)
  {
  }

  lemma NewEnds(m: Message, next: Fd, fd: Fd)
    requires fd in FdSet(Range(next, |Ends(m)|))
    ensures fd in Received(m, next) && Received(m, next)[fd] in Ends(m)
  {
  }

  lemma CrasherEnds(m: Message, p: Pid)
    requires FromCrasher(m, p)
    ensures Ends(m) == [ReadEnd(p), WriteEnd(p)]
  {
    assert RightsEnds(m)[1..] == [];
    assert Concat(RightsEnds(m)) == RightsEnds(m)[0] + Concat([]);
  }

  lemma SignalInPending(s: State, t: Task)
    requires t in s.fileTasks || t in s.ioTasks
    ensures t.signal in FdSet(Pending(s))
  {
    FdSetConcat(Signals(s.fileTasks), Signals(s.ioTasks));
    if i :| 0 <= i < |s.fileTasks| && s.fileTasks[i] == t {
      assert Signals(s.fileTasks)[i] == t.signal;
    } else {
      var i :| 0 <= i < |s.ioTasks| && s.ioTasks[i] == t;
      assert Signals(s.ioTasks)[i] == t.signal;
    }
  }

  /** Receiving leaves the descriptors of pending tasks as they are. */
  lemma ReceiveKeepsTask(s: State, inodeOk: bool, holder: Option<Pid>, t: Task)
    requires Ledger(s) && Queue(s) && s.queue != [] && TaskIsRight(s, t) && (t in s.fileTasks || t in s.ioTasks)
    ensures TaskIsRight(DoReceive(s, inodeOk, holder), t)
    ensures DoReceive(s, inodeOk, holder).open[t.signal] == s.open[t.signal]
  {
    hide Handle, Install, Ends, FdSet, RightsEnds, Signals, Pending;
    ReceivedSplit(s, inodeOk, holder);
    SignalInPending(s, t);
  }

  /** The task posted for the message of a crasher names that crasher. */
  lemma NewTaskIsRight(s: State, inodeOk: bool, holder: Option<Pid>)
    requires Ledger(s) && Queue(s) && s.queue != [] && HolderIsRight(s.queue[0], holder)
    ensures var h := Handle(Install(s.queue[0], s.nextFd), inodeOk, holder);
            h.task.Some? ==> TaskIsRight(DoReceive(s, inodeOk, holder), h.task.value)
  {
    hide Handle, Install, FdSet, RightsEnds, Signals, Pending, Ends, Received;
    var m := s.queue[0];
    var h := Handle(Install(m, s.nextFd), inodeOk, holder);
    ReceivedSplit(s, inodeOk, holder);
    TaskComesFromHolder(Install(m, s.nextFd), inodeOk, holder);
    if h.task.Some? {
      var fd := h.task.value.signal;
      InFdSet(TaskFds(h.task), fd);
      NewEnds(m, s.nextFd, fd);
      var end := Received(m, s.nextFd)[fd];
      if p :| FromCrasher(m, p) {
        CrasherEnds(m, p);
      } else {
        assert FromOther(m);
        var i :| 0 <= i < |Ends(m)| && Ends(m)[i] == end;
      }
    }
  }

  lemma ReceiveKeepsInv(s: State, inodeOk: bool, holder: Option<Pid>)
    requires Inv(s) && s.queue != [] && HolderIsRight(s.queue[0], holder)
    ensures Inv(DoReceive(s, inodeOk, holder))
  {
    hide Handle, Install, Ends, FdSet, RightsEnds, Ledger, Received, TaskIsRight, FromOther, FromCrasher;
    var s' := DoReceive(s, inodeOk, holder);
    ReceiveKeepsLedger(s, inodeOk, holder);
    NewTaskIsRight(s, inodeOk, holder);
    forall i | 0 <= i < |s'.fileTasks|
      ensures TaskIsRight(s', s'.fileTasks[i])
    {
      if i < |s.fileTasks| {
        ReceiveKeepsTask(s, inodeOk, holder, s.fileTasks[i]);
      }
    }
    forall i | 0 <= i < |s'.ioTasks|
      ensures TaskIsRight(s', s'.ioTasks[i]) && s'.ioTasks[i].pid in s'.dumped
    {
      ReceiveKeepsTask(s, inodeOk, holder, s.ioTasks[i]);
    }
    assert forall i :: 0 <= i < |s'.queue| ==> s'.queue[i] == s.queue[i + 1];
  }

  // -------------------------------------------------------------------------
  // The other steps

  lemma HeadSignal(ts: seq<Task>)
    requires ts != []
    ensures Signals(ts) == [ts[0].signal] + Signals(ts[1..])
  {
  }

  lemma WriteDumpKeepsLedger(s: State)
    requires Ledger(s) && s.fileTasks != []
    ensures Ledger(Do(s, WriteDump))
  {
    hide FdSet, Signals, Balanced;
    var t := s.fileTasks[0];
    HeadSignal(s.fileTasks);
    SignalsConcat(s.ioTasks, [t]);
    OneSignal(Some(t));
    BalancedMove(s.closed, t.signal, Signals(s.fileTasks[1..]), Signals(s.ioTasks), s.nextFd, s.open.Keys);
  }

  lemma WriteDumpKeepsInv(s: State)
    requires Inv(s) && s.fileTasks != []
    ensures Inv(Do(s, WriteDump))
  {
    hide FdSet, FromOther, FromCrasher, Signals, Ledger;
    var s', t := Do(s, WriteDump), s.fileTasks[0];
    WriteDumpKeepsLedger(s);
    assert TaskIsRight(s, t);
    assert forall i :: 0 <= i < |s'.fileTasks| ==> s'.fileTasks[i] == s.fileTasks[i + 1];
  }

  lemma AnswerKeepsLedger(s: State, delivered: bool)
    requires Ledger(s) && s.ioTasks != [] && s.ioTasks[0].signal in s.open
    ensures Ledger(Do(s, Answer(delivered)))
    ensures s.ioTasks[0].signal !in FdSet(Pending(Do(s, Answer(delivered))))
  {
    hide FdSet, Signals, Balanced;
    var t := s.ioTasks[0];
    HeadSignal(s.ioTasks);
    BalancedClose(s.closed, t.signal, Signals(s.fileTasks), Signals(s.ioTasks[1..]), s.nextFd, s.open.Keys);
  }

  lemma AnswerKeepsInv(s: State, delivered: bool)
    requires Inv(s) && s.ioTasks != [] && s.ioTasks[0].signal in s.open
    ensures Inv(Do(s, Answer(delivered)))
  {
    hide FdSet, FromOther, FromCrasher, Signals, Ledger, Pending;
    var s', t := Do(s, Answer(delivered)), s.ioTasks[0];
    AnswerKeepsLedger(s, delivered);
    assert TaskIsRight(s, t);
    forall i | 0 <= i < |s'.fileTasks|
      ensures TaskIsRight(s', s'.fileTasks[i])
    {
      SignalInPending(s', s'.fileTasks[i]);
    }
    forall i | 0 <= i < |s'.ioTasks|
      ensures TaskIsRight(s', s'.ioTasks[i]) && s'.ioTasks[i].pid in s'.dumped
    {
      assert s'.ioTasks[i] == s.ioTasks[i + 1];
      SignalInPending(s', s'.ioTasks[i]);
    }
  }

  /** The ledger and the tasks are a matter of the browser alone. */
  lemma SameBrowser(s: State, s': State)
    requires s'.open == s.open && s'.closed == s.closed && s'.nextFd == s.nextFd && s'.dumped == s.dumped
    requires s'.fileTasks == s.fileTasks && s'.ioTasks == s.ioTasks
    ensures Ledger(s) <==> Ledger(s')
    ensures Tasks(s) <==> Tasks(s')
  {
    hide FdSet, Signals;
  }

  lemma SenderKeepsInv(s: State, a: Action)
    requires Inv(s) && Enabled(s, a) && !IsHostAction(a)
    ensures Inv(Do(s, a))
  {
    hide Ledger, Tasks, FromOther, FromCrasher, HasWriter;
    var s' := Do(s, a);
    SameBrowser(s, s');
    assert Answers(s');
    forall i | 0 <= i < |s'.queue|
      ensures FromOther(s'.queue[i]) || exists p :: FromCrasher(s'.queue[i], p)
    {
      assert i < |s.queue| ==> s'.queue[i] == s.queue[i];
    }
  }

  /** Every step keeps the invariant. */
  lemma StepKeepsInv(s: State, a: Action)
    requires Inv(s) && Enabled(s, a)
    ensures Inv(Do(s, a))
  {
    hide Inv, FromCrasher, FromOther, HasWriter, RightsEnds;
    if a.Receive? {
      ReceiveKeepsInv(s, a.inodeOk, a.holder);
    } else if a.WriteDump? {
      WriteDumpKeepsInv(s);
    } else if a.Answer? {
      AnswerKeepsInv(s, a.delivered);
    } else {
      SenderKeepsInv(s, a);
    }
  }

  lemma InitInv()
    ensures Inv(INIT)
  {
    assert Range(0, 0) == [] && Signals([]) == [];
    assert INIT.closed + Pending(INIT) == [];
  }

  lemma {:induction false} RunKeepsInv(s: State, actions: seq<Action>)
    requires Inv(s) && IsRun(s, actions)
    ensures Inv(After(s, actions))
    decreases |actions|
  {
    hide Inv, Enabled, Do;
    if actions != [] {
      StepKeepsInv(s, actions[0]);
      RunKeepsInv(Do(s, actions[0]), actions[1..]);
    }
  }

  // -------------------------------------------------------------------------
  // Safety and progress of every run

  /**
    In every run: no descriptor number is closed twice or both closed and open, every received
    descriptor that is not closed is held by exactly one posted task, and a process is only
    answered, and only reads the byte, after its dump has been written.
   */
  lemma Safety(actions: seq<Action>)
    requires IsRun(INIT, actions)
    ensures var s := After(INIT, actions);
            (forall fd: Fd :: multiset(s.closed)[fd] + multiset(Pending(s))[fd] == if fd < s.nextFd then 1 else 0) &&
            s.open.Keys == FdSet(Pending(s)) &&
            s.answered <= s.dumped &&
            forall p :: In(s, p, GotByte) ==> p in s.dumped
  {
    hide After, IsRun, FdSet, Pending;
    InitInv();
    RunKeepsInv(INIT, actions);
    var s := After(INIT, actions);
    RangeOnce(0, s.nextFd);
    forall fd: Fd
      ensures multiset(s.closed)[fd] + multiset(Pending(s))[fd] == if fd < s.nextFd then 1 else 0
    {
      assert multiset(s.closed + Pending(s))[fd] == multiset(Range(0, s.nextFd))[fd];
    }
  }

  /** What the browser still has to do. */
  function Work(s: State): nat {
    3 * |s.queue| + 2 * |s.fileTasks| + |s.ioTasks|
  }

  lemma HostStepWorks(s: State, a: Action)
    requires Enabled(s, a) && IsHostAction(a)
    ensures Work(Do(s, a)) < Work(s)
  {
    hide Handle, Install, FdSet, Received;
  }

  /** Every step of the browser does some of the work, and while there is work some step is enabled. */
  lemma HostProgress(s: State)
    requires Inv(s)
    ensures forall a :: Enabled(s, a) && IsHostAction(a) ==> Work(Do(s, a)) < Work(s)
    ensures Work(s) > 0 ==> exists a :: IsHostAction(a) && Enabled(s, a)
  {
    hide Handle, Install, FdSet, Received, HasWriter, Ledger, Queue, Answers;
    forall a | Enabled(s, a) && IsHostAction(a)
      ensures Work(Do(s, a)) < Work(s)
    {
      HostStepWorks(s, a);
    }
    if s.queue != [] {
      assert Enabled(s, Receive(false, None));
    } else if s.fileTasks != [] {
      assert Enabled(s, WriteDump);
    } else if s.ioTasks != [] {
      assert TaskIsRight(s, s.ioTasks[0]);
      assert Enabled(s, Answer(true));
    }
  }

  lemma {:induction false} HostRunIsBounded(s: State, actions: seq<Action>)
    requires Inv(s) && IsRun(s, actions) && forall i :: 0 <= i < |actions| ==> IsHostAction(actions[i])
    ensures |actions| + Work(After(s, actions)) <= Work(s)
    decreases |actions|
  {
    hide Inv, Enabled, Do, Work;
    if actions != [] {
      HostProgress(s);
      StepKeepsInv(s, actions[0]);
      HostRunIsBounded(Do(s, actions[0]), actions[1..]);
    }
  }

  /**
    Once the browser has nothing left to do, it has closed every descriptor it ever received
    exactly once, and the blocking read of every waiting process returns: with the byte if it
    was answered, with end-of-file if not.
   */
  lemma NobodyIsLeftWaiting(actions: seq<Action>, p: Pid)
    requires IsRun(INIT, actions) && Work(After(INIT, actions)) == 0
    ensures var s := After(INIT, actions);
            s.open == map[] &&
            (forall fd: Fd :: multiset(s.closed)[fd] == if fd < s.nextFd then 1 else 0) &&
            (In(s, p, Waiting) ==> Enabled(s, if p in s.answered then ReadByte(p) else ReadEof(p)))
  {
    hide After, IsRun;
    InitInv();
    RunKeepsInv(INIT, actions);
    Safety(actions);
    var s := After(INIT, actions);
    assert Pending(s) == [];
    assert multiset(Pending(s)) == multiset{};
    assert s.open.Keys == {};
  }
}
