/** What the handshake is for: when every crashing process gets its dump and its answer. */
module Service {
  import opened CrashHost
  import opened Handshake

  predicate Signed(m: Message) {
    exists i :: 0 <= i < |m| && m[i].SenderCredentials?
  }

  /**
    Nothing fails on the way: a crasher's message carries the credentials of its sender, its
    socket is found and held by somebody when it is received, and the answering byte is delivered.
   */
  ghost predicate GoesWell(s: State, a: Action) {
    match a
    case Send(_, m) => Signed(m)
    case Receive(inodeOk, holder) =>
      (exists p :: s.queue != [] && FromCrasher(s.queue[0], p)) ==> inodeOk && holder.Some?
    case Answer(delivered) => delivered
    case _ => true
  }

  ghost predicate AllGoesWell(s: State, actions: seq<Action>)
    requires IsRun(s, actions)
    decreases |actions|
  {
    actions == [] || (GoesWell(s, actions[0]) && AllGoesWell(Do(s, actions[0]), actions[1..]))
  }

  // -------------------------------------------------------------------------
  // Where the case of a crasher stands

  predicate InQueue(s: State, p: Pid) {
    exists i :: 0 <= i < |s.queue| && FromCrasher(s.queue[i], p) && Signed(s.queue[i])
  }

  predicate IsTaskFor(s: State, t: Task, p: Pid) {
    t.pid == p && t.signal in s.open && s.open[t.signal] == WriteEnd(p)
  }

  ghost predicate Posted(s: State, p: Pid) {
    exists t :: (t in s.fileTasks || t in s.ioTasks) && IsTaskFor(s, t, p)
  }

  ghost predicate CaseOpen(s: State, p: Pid) {
    InQueue(s, p) || Posted(s, p) || p in s.answered
  }

  /** The case of every crasher that has sent its message is in the queue, with a thread, or answered. */
  ghost predicate Cared(s: State) {
    (forall p :: In(s, p, Sent) || In(s, p, Waiting) ==> CaseOpen(s, p)) && forall p :: !In(s, p, GotEof)
  }

  // -------------------------------------------------------------------------
  // The message of a crasher

  lemma {:induction false} CredentialsArrive(m: Message, next: Fd)
    ensures HasCredentials(Install(m, next)) <==> Signed(m)
    decreases |m|
  {
    hide Install;
    if m == [] {
      assert Install(m, next) == [] by { EmptyMessage(m, next); }
    } else {
      var n := if m[0].EndRights? then |m[0].ends| else 0;
      InstallUnfold(m, next);
      FirstHeader(m, next);
      CredentialsUnfold(Install(m, next));
      CredentialsArrive(m[1..], next + n);
      SignedUnfold(m);
    }
  }

  lemma EmptyMessage(m: Message, next: Fd)
    requires m == []
    ensures Install(m, next) == []
  {
  }

  lemma FirstHeader(m: Message, next: Fd)
    requires m != []
    ensures Install(m, next) != [] && (Install(m, next)[0].Credentials? <==> m[0].SenderCredentials?)
  {
  }

  lemma SignedUnfold(m: Message)
    requires m != []
    ensures Signed(m) <==> m[0].SenderCredentials? || Signed(m[1..])
  {
    if i :| 0 <= i < |m| && m[i].SenderCredentials? {
      assert i > 0 ==> m[1..][i - 1] == m[i];
    }
    assert forall i :: 0 <= i < |m[1..]| ==> m[1..][i] == m[i + 1];
  }

  /** It arrives as one pair of new descriptors. */
  lemma CrasherArrives(m: Message, p: Pid, next: Fd)
    requires FromCrasher(m, p)
    ensures RightsOf(Install(m, next)) == [[next, next + 1]]
  {
    hide Install, RightsOf;
    var rights := RightsOf(Install(m, next));
    InstallShape(m, next);
    CrasherEnds(m, p);
    assert rights == [rights[0]];
    assert Concat(rights) == rights[0] by {
      assert rights[1..] == [];
    }
    assert Range(next, 2) == [next, next + 1];
  }

  /** If all goes well it is answered by a task for its sender. */
  lemma CrasherIsPosted(s: State, inodeOk: bool, holder: Option<Pid>, p: Pid)
    requires Inv(s) && s.queue != [] && HolderIsRight(s.queue[0], holder)
    requires FromCrasher(s.queue[0], p) && Signed(s.queue[0]) && inodeOk && holder.Some?
    ensures Posted(DoReceive(s, inodeOk, holder), p)
  {
    hide Handle, Install, RightsOf, FirstOdd, HasCredentials, Signed, Inv, Ends, RightsEnds, FdSet;
    var m, next := s.queue[0], s.nextFd;
    var ctrl := Install(m, next);
    CrasherArrives(m, p, next);
    CredentialsArrive(m, next);
    OnePair(next, next + 1);
    DumpIsRequestedExactly(ctrl, inodeOk, holder);
    CrasherEnds(m, p);
    var s', t := DoReceive(s, inodeOk, holder), Task(p, next + 1);
    TwoNumbers(next);
    assert s'.fileTasks[|s.fileTasks|] == t;
    assert Received(m, next)[next + 1] == EndNumber(m, 1) == WriteEnd(p);
    assert IsTaskFor(s', t, p);
  }

  lemma OnePair(a: Fd, b: Fd)
    ensures FirstOdd([[a, b]]) == None
  {
    assert [[a, b]][1..] == [];
  }

  lemma TwoNumbers(next: Fd)
    ensures next + 1 in FdSet(Range(next, 2)) && FdSet([next]) == {next}
  {
    assert Range(next, 2)[1] == next + 1;
    assert [next][0] == next;
  }

  // -------------------------------------------------------------------------
  // Every step keeps the cases open

  lemma PostedStays(s: State, s': State, p: Pid)
    requires Posted(s, p)
    requires forall t :: (t in s.fileTasks || t in s.ioTasks) && IsTaskFor(s, t, p) ==>
                           (t in s'.fileTasks || t in s'.ioTasks) && IsTaskFor(s', t, p)
    ensures Posted(s', p)
  {
  }

  lemma ReceiveKeepsPosted(s: State, inodeOk: bool, holder: Option<Pid>, p: Pid)
    requires Inv(s) && s.queue != [] && Posted(s, p)
    ensures Posted(DoReceive(s, inodeOk, holder), p)
  {
    hide DoReceive, Ledger, Queue, Answers;
    var s' := DoReceive(s, inodeOk, holder);
    var t :| (t in s.fileTasks || t in s.ioTasks) && IsTaskFor(s, t, p);
    ReceiveKeepsTask(s, inodeOk, holder, t);
    TasksGrow(s, inodeOk, holder);
    assert t in s'.fileTasks || t in s'.ioTasks;
  }

  lemma TasksGrow(s: State, inodeOk: bool, holder: Option<Pid>)
    requires s.queue != []
    ensures s.fileTasks <= DoReceive(s, inodeOk, holder).fileTasks && DoReceive(s, inodeOk, holder).ioTasks == s.ioTasks
  {
    hide Handle, Install, FdSet, Received;
  }

  lemma ReceiveKeepsCared(s: State, inodeOk: bool, holder: Option<Pid>)
    requires Inv(s) && Cared(s) && Enabled(s, Receive(inodeOk, holder)) && GoesWell(s, Receive(inodeOk, holder))
    ensures Cared(DoReceive(s, inodeOk, holder))
  {
    hide Inv, FromCrasher, Signed, Posted, HolderIsRight;
    var s' := DoReceive(s, inodeOk, holder);
    assert forall p :: In(s', p, GotEof) ==> In(s, p, GotEof);
    forall p | In(s', p, Sent) || In(s', p, Waiting)
      ensures CaseOpen(s', p)
    {
      assert CaseOpen(s, p);
      if Posted(s, p) {
        ReceiveKeepsPosted(s, inodeOk, holder, p);
      } else if InQueue(s, p) {
        var i :| 0 <= i < |s.queue| && FromCrasher(s.queue[i], p) && Signed(s.queue[i]);
        if i == 0 {
          CrasherIsPosted(s, inodeOk, holder, p);
        } else {
          assert s'.queue[i - 1] == s.queue[i];
        }
      }
    }
  }

  lemma WriteDumpKeepsCared(s: State)
    requires Cared(s) && s.fileTasks != []
    ensures Cared(Do(s, WriteDump))
  {
    hide FromCrasher, Signed;
    var s' := Do(s, WriteDump);
    assert forall p :: In(s', p, GotEof) ==> In(s, p, GotEof);
    forall p | In(s', p, Sent) || In(s', p, Waiting)
      ensures CaseOpen(s', p)
    {
      assert CaseOpen(s, p);
      if Posted(s, p) {
        HeadMoves(s.fileTasks, s.ioTasks);
        PostedStays(s, s', p);
      }
    }
  }

  lemma HeadMoves(file: seq<Task>, io: seq<Task>)
    requires file != []
    ensures forall t :: t in file || t in io ==> t in file[1..] || t in io + [file[0]]
  {
    forall t | t in file
      ensures t in file[1..] || t in io + [file[0]]
    {
      var i :| 0 <= i < |file| && file[i] == t;
      if i > 0 {
        assert file[1..][i - 1] == t;
      } else {
        assert (io + [file[0]])[|io|] == t;
      }
    }
  }

  lemma AnswerKeepsCared(s: State)
    requires Inv(s) && Cared(s) && Enabled(s, Answer(true))
    ensures Cared(Do(s, Answer(true)))
  {
    hide FromCrasher, Signed, Ledger, Queue, Answers, FdSet, Pending;
    var s', head := Do(s, Answer(true)), s.ioTasks[0];
    AnswerKeepsLedger(s, true);
    assert forall p :: In(s', p, GotEof) ==> In(s, p, GotEof);
    forall p | In(s', p, Sent) || In(s', p, Waiting)
      ensures CaseOpen(s', p)
    {
      assert CaseOpen(s, p);
      if Posted(s, p) {
        var t :| (t in s.fileTasks || t in s.ioTasks) && IsTaskFor(s, t, p);
        if t.signal != head.signal {
          NotTheHead(s.ioTasks, t);
          assert t in s'.fileTasks || t in s'.ioTasks;
        }
      }
    }
  }

  lemma NotTheHead(ts: seq<Task>, t: Task)
    requires ts != [] && t != ts[0]
    ensures t in ts ==> t in ts[1..]
  {
    if i :| 0 <= i < |ts| && ts[i] == t {
      assert ts[1..][i - 1] == t;
    }
  }

  /** A crasher whose case is open is not told that nobody is left. */
  lemma OpenCaseHasWriter(s: State, p: Pid)
    requires CaseOpen(s, p) && p !in s.answered
    ensures HasWriter(s, p)
  {
    hide Ends;
    if i :| 0 <= i < |s.queue| && FromCrasher(s.queue[i], p) && Signed(s.queue[i]) {
      CrasherEnds(s.queue[i], p);
      assert [ReadEnd(p), WriteEnd(p)][1] == WriteEnd(p);
      assert WriteEnd(p) in Ends(s.queue[i]);
    } else {
      var t :| (t in s.fileTasks || t in s.ioTasks) && IsTaskFor(s, t, p);
      assert t.signal in s.open && s.open[t.signal] == WriteEnd(p);
    }
  }

  lemma SenderKeepsCared(s: State, a: Action)
    requires Cared(s) && Enabled(s, a) && GoesWell(s, a) && !IsHostAction(a)
    ensures Cared(Do(s, a))
  {
    hide FromCrasher, Signed, HasWriter, IsTaskFor;
    var s' := Do(s, a);
    if a.ReadEof? {
      assert CaseOpen(s, a.p);
      OpenCaseHasWriter(s, a.p);
    }
    assert forall p :: In(s', p, GotEof) ==> In(s, p, GotEof);
    forall p | In(s', p, Sent) || In(s', p, Waiting)
      ensures CaseOpen(s', p)
    {
      if a.Send? && a.p == p {
        assert s'.queue[|s.queue|] == a.m;
      } else {
        assert CaseOpen(s, p);
        assert forall i :: 0 <= i < |s.queue| ==> s'.queue[i] == s.queue[i];
        assert Posted(s, p) ==> Posted(s', p) by { SamePosted(s, s', p); }
      }
    }
  }

  lemma SamePosted(s: State, s': State, p: Pid)
    requires s'.open == s.open && s'.fileTasks == s.fileTasks && s'.ioTasks == s.ioTasks
    ensures Posted(s, p) ==> Posted(s', p)
  {
  }

  lemma StepKeepsCared(s: State, a: Action)
    requires Inv(s) && Cared(s) && Enabled(s, a) && GoesWell(s, a)
    ensures Cared(Do(s, a))
  {
    hide Inv, Cared, FromCrasher, Signed, HasWriter, RightsEnds;
    if a.Receive? {
      ReceiveKeepsCared(s, a.inodeOk, a.holder);
    } else if a.WriteDump? {
      WriteDumpKeepsCared(s);
    } else if a.Answer? {
      AnswerKeepsCared(s);
    } else {
      SenderKeepsCared(s, a);
    }
  }

  lemma {:induction false} RunKeepsCared(s: State, actions: seq<Action>)
    requires Inv(s) && Cared(s) && IsRun(s, actions) && AllGoesWell(s, actions)
    ensures Cared(After(s, actions))
    decreases |actions|
  {
    hide Inv, Cared, Enabled, Do, GoesWell;
    if actions != [] {
      StepKeepsInv(s, actions[0]);
      StepKeepsCared(s, actions[0]);
      RunKeepsCared(Do(s, actions[0]), actions[1..]);
    }
  }

  /**
    In a run in which all goes well no crasher is turned away, and once the browser has nothing
    left to do every waiting crasher has been dumped and answered, and its read returns the byte.
   */
  lemma EveryCrasherIsServed(actions: seq<Action>, p: Pid)
    requires IsRun(INIT, actions) && AllGoesWell(INIT, actions)
    ensures var s := After(INIT, actions);
            && !In(s, p, GotEof)
            && (In(s, p, Waiting) && Work(s) == 0 ==> p in s.dumped && p in s.answered && Enabled(s, ReadByte(p)))
  {
    hide After, IsRun, AllGoesWell, FromCrasher, Signed;
    InitInv();
    RunKeepsInv(INIT, actions);
    RunKeepsCared(INIT, actions);
    Safety(actions);
  }

  // -------------------------------------------------------------------------
  // How long it takes

  function Those(s: State, phase: Phase): set<Pid> {
    set p | p in s.crashers && s.crashers[p] == phase
  }

  /** What is left to do when no further process crashes and nobody else sends a message. */
  function Total(s: State): nat {
    6 * |Those(s, Paired)| + 2 * |Those(s, Sent)| + |Those(s, Waiting)| + Work(s)
  }

  predicate IsSettling(a: Action) {
    !a.Crash? && !a.OtherSends?
  }

  /** One crasher moves on to another phase. */
  lemma MovesOn(s: State, s': State, p: Pid, from: Phase, to: Phase)
    requires In(s, p, from) && s'.crashers == s.crashers[p := to] && from != to
    ensures |Those(s', from)| == |Those(s, from)| - 1 && |Those(s', to)| == |Those(s, to)| + 1
    ensures forall other :: other != from && other != to ==> Those(s', other) == Those(s, other)
  {
    assert Those(s', from) == Those(s, from) - {p};
    assert Those(s', to) == Those(s, to) + {p};
    forall other | other != from && other != to
      ensures Those(s', other) == Those(s, other)
    {
    }
  }

  lemma NobodyMoves(s: State, s': State)
    requires s'.crashers == s.crashers
    ensures forall phase :: Those(s', phase) == Those(s, phase)
  {
  }

  /** Every step of a crasher or of the browser leaves less to do. */
  lemma SettlingLessens(s: State, a: Action)
    requires Enabled(s, a) && IsSettling(a)
    ensures Total(Do(s, a)) < Total(s)
  {
    hide FromCrasher, HasWriter, Those;
    var s' := Do(s, a);
    if IsHostAction(a) {
      HostStepWorks(s, a);
      SameCrashers(s, a);
      NobodyMoves(s, s');
    } else {
      match a
      case Send(p, _) => MovesOn(s, s', p, Paired, Sent);
      case SendFails(p) => MovesOn(s, s', p, Paired, GaveUp);
      case CloseSignal(p) => MovesOn(s, s', p, Sent, Waiting);
      case ReadByte(p) => MovesOn(s, s', p, Waiting, GotByte);
      case ReadEof(p) => MovesOn(s, s', p, Waiting, GotEof);
    }
  }

  lemma SameCrashers(s: State, a: Action)
    requires Enabled(s, a) && IsHostAction(a)
    ensures Do(s, a).crashers == s.crashers
  {
    hide Handle, Install, FdSet, Received;
  }

  /** A run without further crashes and messages is no longer than what there was to do. */
  lemma {:induction false} SettlingIsBounded(s: State, actions: seq<Action>)
    requires IsRun(s, actions) && forall i :: 0 <= i < |actions| ==> IsSettling(actions[i])
    ensures |actions| + Total(After(s, actions)) <= Total(s)
    decreases |actions|
  {
    hide Enabled, Do, Total;
    if actions != [] {
      SettlingLessens(s, actions[0]);
      SettlingIsBounded(Do(s, actions[0]), actions[1..]);
    }
  }

  /** A message as a crasher sends it. */
  function Plea(p: Pid): Message {
    [SenderCredentials(p), EndRights([ReadEnd(p), WriteEnd(p)])]
  }

  lemma PleaIsRight(p: Pid)
    ensures FromCrasher(Plea(p), p) && Signed(Plea(p))
  {
    var m := Plea(p);
    assert m[1..] == [EndRights([ReadEnd(p), WriteEnd(p)])] && m[1..][1..] == [];
    assert RightsEnds(m[1..]) == [[ReadEnd(p), WriteEnd(p)]] + RightsEnds(m[1..][1..]);
    assert m[0].SenderCredentials?;
  }

  lemma OnlyOneSender(m: Message, p: Pid)
    requires FromCrasher(m, p)
    ensures forall q :: FromCrasher(m, q) ==> q == p
  {
  }

  /** The browser can always go on, and well. */
  lemma BrowserGoesOn(s: State)
    requires Inv(s) && Work(s) > 0
    ensures exists a :: IsSettling(a) && Enabled(s, a) && GoesWell(s, a)
  {
    hide FromCrasher, Ledger, Queue, Answers, HasWriter;
    if s.queue != [] {
      if p :| FromCrasher(s.queue[0], p) {
        OnlyOneSender(s.queue[0], p);
        var a := Receive(true, Some(p));
        assert Enabled(s, a) && GoesWell(s, a);
      } else {
        var a := Receive(true, None);
        assert Enabled(s, a) && GoesWell(s, a);
      }
    } else if s.fileTasks != [] {
      assert Enabled(s, WriteDump) && GoesWell(s, WriteDump);
    } else {
      assert TaskIsRight(s, s.ioTasks[0]);
      assert Enabled(s, Answer(true)) && GoesWell(s, Answer(true));
    }
  }

  /** As long as there is something to do, somebody can do it, and well. */
  lemma SomebodyGoesOn(s: State)
    requires Inv(s) && Cared(s) && Total(s) > 0
    ensures exists a :: IsSettling(a) && Enabled(s, a) && GoesWell(s, a)
  {
    hide FromCrasher, Signed, HasWriter, Inv, Work;
    if Work(s) > 0 {
      BrowserGoesOn(s);
    } else if p :| p in Those(s, Paired) {
      PleaIsRight(p);
      assert Enabled(s, Send(p, Plea(p))) && GoesWell(s, Send(p, Plea(p)));
    } else if p :| p in Those(s, Sent) {
      assert Enabled(s, CloseSignal(p)) && GoesWell(s, CloseSignal(p));
    } else {
      NoneOf(Those(s, Paired));
      NoneOf(Those(s, Sent));
      NoneOf(Those(s, Waiting));
      var p :| p in Those(s, Waiting);
      WaitingIsAnswered(s, p);
      assert Enabled(s, ReadByte(p)) && GoesWell(s, ReadByte(p));
    }
  }

  lemma NoneOf(ps: set<Pid>)
    ensures |ps| > 0 ==> exists p :: p in ps
  {
    assert (forall p :: p !in ps) ==> ps == {};
  }

  lemma WaitingIsAnswered(s: State, p: Pid)
    requires Cared(s) && Work(s) == 0 && In(s, p, Waiting)
    ensures p in s.answered
  {
    hide FromCrasher, Signed;
    assert CaseOpen(s, p);
  }

  /**
    In a run in which all goes well, once nothing is left to do every crashing process that could
    send its message has been dumped and answered and has read the byte.
   */
  lemma EverybodyIsServed(actions: seq<Action>, p: Pid)
    requires IsRun(INIT, actions) && AllGoesWell(INIT, actions) && Total(After(INIT, actions)) == 0
    ensures var s := After(INIT, actions);
            p in s.crashers ==> s.crashers[p] == GaveUp || (s.crashers[p] == GotByte && p in s.dumped && p in s.answered)
  {
    hide After, IsRun, AllGoesWell, FromCrasher, Signed;
    InitInv();
    RunKeepsInv(INIT, actions);
    RunKeepsCared(INIT, actions);
    var s := After(INIT, actions);
    if p in s.crashers {
      Empty(Those(s, Paired));
      Empty(Those(s, Sent));
      Empty(Those(s, Waiting));
      assert p in Those(s, s.crashers[p]);
      assert !In(s, p, GotEof);
    }
  }

  lemma Empty(ps: set<Pid>)
    ensures |ps| == 0 ==> forall p :: p !in ps
  {
    if p :| p in ps {
      assert |ps - {p}| == |ps| - 1;
    }
  }
}
