/** The receiving end of the crash handshake: what one death-signal message makes the browser do. */
module CrashHost {

  type Fd = nat
  type Pid = nat

  datatype Option<T> = None | Some(value: T) {
    function GetOr(default: T): T {
      if Some? then value else default
    }
  }

  /** A header of the control data as `recvmsg` delivers it. */
  datatype Cmsg = Rights(fds: seq<Fd>) | Credentials(pid: Pid) | OtherHeader

  /** A posted `WriteDumpFile` or `QueueCrashDumpTask`: the process to dump and the descriptor to answer on. */
  datatype Task = Task(pid: Pid, signal: Fd)

  /** What was done with a message: descriptors closed, in order, and the task posted, if any. */
  datatype Handled = Handled(closed: seq<Fd>, task: Option<Task>)

  datatype Walked = Refused(fds: seq<Fd>) | Complete(pid: Option<Pid>, pair: Option<(Fd, Fd)>)

  /** The walk over the headers, with what has been found so far. */
  function Walk(ctrl: seq<Cmsg>, pid: Option<Pid>, pair: Option<(Fd, Fd)>): Walked {
    if ctrl == [] then Complete(pid, pair)
    else
      match ctrl[0]
      case Rights(fds) =>
        if |fds| != 2 then Refused(fds) else Walk(ctrl[1..], pid, Some((fds[0], fds[1])))
      case Credentials(p) => Walk(ctrl[1..], Some(p), pair)
      case OtherHeader => Walk(ctrl[1..], pid, pair)
  }

  /** `inodeOk` and `holder` are what the inode lookup and the search for the process at the other end say. */
  function Handle(ctrl: seq<Cmsg>, inodeOk: bool, holder: Option<Pid>): Handled {
    match Walk(ctrl, None, None)
    case Refused(fds) => Handled(fds, None)
    case Complete(pid, pair) =>
      if pair.None? then Handled([], None)
      else
        var (partner, signal) := pair.value;
        if pid.None? || !inodeOk then Handled([partner, signal], None)
        else if holder.None? then Handled([partner, signal], None)
        else Handled([partner], Some(Task(holder.value, signal)))
  }

  function RightsOf(ctrl: seq<Cmsg>): seq<seq<Fd>> {
    if ctrl == [] then [] else (if ctrl[0].Rights? then [ctrl[0].fds] else []) + RightsOf(ctrl[1..])
  }

  function Concat<T>(ss: seq<seq<T>>): seq<T> {
    if ss == [] then [] else ss[0] + Concat(ss[1..])
  }

  /** All descriptors that came with a message. */
  function AllFds(ctrl: seq<Cmsg>): seq<Fd> {
    Concat(RightsOf(ctrl))
  }

  /** The descriptors that are closed or handed on. */
  function Accounted(h: Handled): seq<Fd> {
    h.closed + if h.task.Some? then [h.task.value.signal] else []
  }

  function Found(w: Walked): seq<Fd> {
    match w
    case Refused(fds) => fds
    case Complete(_, pair) => PairFds(pair)
  }

  function PairFds(pair: Option<(Fd, Fd)>): seq<Fd> {
    if pair.None? then [] else [pair.value.0, pair.value.1]
  }

  // -------------------------------------------------------------------------
  // When no descriptor is lost

  /** At most one descriptor header; or a first one of the wrong size and then only empty ones. */
  predicate Tidy(rights: seq<seq<Fd>>) {
    |rights| <= 1 || (|rights[0]| != 2 && forall i :: 0 < i < |rights| ==> rights[i] == [])
  }

  lemma {:induction false} ConcatEmpty<T>(ss: seq<seq<T>>)
    ensures Concat(ss) == [] <==> forall i :: 0 <= i < |ss| ==> ss[i] == []
  {
    if ss != [] {
      ConcatEmpty(ss[1..]);
      if Concat(ss) == [] {
        assert ss[0] == [] && Concat(ss[1..]) == [];
        forall i | 0 <= i < |ss|
          ensures ss[i] == []
        {
          assert i > 0 ==> ss[i] == ss[1..][i - 1];
        }
      } else {
        assert forall i :: 0 <= i < |ss[1..]| ==> ss[1..][i] == ss[i + 1];
      }
    }
  }

  /** Being tidy, header by header. */
  lemma TidyUnfold(fds: seq<Fd>, rest: seq<seq<Fd>>)
    ensures Tidy([fds] + rest) <==> rest == [] || (|fds| != 2 && Concat(rest) == [])
  {
    ConcatEmpty(rest);
    var all := [fds] + rest;
    assert forall i :: 0 <= i < |rest| ==> rest[i] == all[i + 1];
  }

  /** The descriptor lists of a message, header by header. */
  lemma RightsUnfold(ctrl: seq<Cmsg>)
    requires ctrl != []
    ensures ctrl[0].Rights? ==>
            RightsOf(ctrl) == [ctrl[0].fds] + RightsOf(ctrl[1..]) && AllFds(ctrl) == ctrl[0].fds + AllFds(ctrl[1..])
    ensures !ctrl[0].Rights? ==> RightsOf(ctrl) == RightsOf(ctrl[1..]) && AllFds(ctrl) == AllFds(ctrl[1..])
  {
    if ctrl[0].Rights? {
      assert RightsOf(ctrl)[1..] == RightsOf(ctrl[1..]);
    }
  }

  /** The walk forgets a descriptor exactly when a pair is followed by another header. */
  lemma {:induction false} WalkCounts(ctrl: seq<Cmsg>, pid: Option<Pid>, pair: Option<(Fd, Fd)>)
    ensures |Found(Walk(ctrl, pid, pair))| == |PairFds(pair)| + |AllFds(ctrl)| <==>
            if pair.Some? then RightsOf(ctrl) == [] else Tidy(RightsOf(ctrl))
    ensures |Found(Walk(ctrl, pid, pair))| <= |PairFds(pair)| + |AllFds(ctrl)|
  {
    hide Tidy, AllFds, RightsOf;
    if ctrl == [] {
      NoRights();
    } else {
      RightsUnfold(ctrl);
      if ctrl[0].Rights? {
        var fds, rest := ctrl[0].fds, ctrl[1..];
        TidyUnfold(fds, RightsOf(rest));
        NoFds(rest);
        if |fds| == 2 {
          WalkCounts(rest, pid, Some((fds[0], fds[1])));
        }
      } else {
        WalkCounts(ctrl[1..], if ctrl[0].Credentials? then Some(ctrl[0].pid) else pid, pair);
      }
    }
  }

  lemma NoRights()
    ensures RightsOf([]) == [] && AllFds([]) == [] && Tidy([])
  {
  }

  lemma NoFds(ctrl: seq<Cmsg>)
    ensures RightsOf(ctrl) == [] ==> AllFds(ctrl) == []
    ensures AllFds(ctrl) == Concat(RightsOf(ctrl))
  {
  }

  /** The walk never invents a descriptor. */
  lemma {:induction false} WalkFinds(ctrl: seq<Cmsg>, pid: Option<Pid>, pair: Option<(Fd, Fd)>)
    ensures multiset(Found(Walk(ctrl, pid, pair))) <= multiset(PairFds(pair)) + multiset(AllFds(ctrl))
  {
    hide AllFds, RightsOf;
    if ctrl != [] {
      RightsUnfold(ctrl);
      if ctrl[0].Rights? {
        var fds, rest := ctrl[0].fds, ctrl[1..];
        assert multiset(AllFds(ctrl)) == multiset(fds) + multiset(AllFds(rest));
        if |fds| == 2 {
          assert fds == PairFds(Some((fds[0], fds[1])));
          WalkFinds(rest, pid, Some((fds[0], fds[1])));
        }
      } else {
        WalkFinds(ctrl[1..], if ctrl[0].Credentials? then Some(ctrl[0].pid) else pid, pair);
      }
    }
  }

  lemma SubMultisetEqual<T>(a: multiset<T>, b: multiset<T>)
    requires a <= b && |a| == |b|
    ensures a == b
  {
    assert b == a + (b - a);
    assert |b - a| == 0;
  }

  /**
    Nothing is closed that was not received, nothing is closed twice, and every received
    descriptor is closed or handed on exactly when the message is tidy.
   */
  lemma HandlerAccountsExactly(ctrl: seq<Cmsg>, inodeOk: bool, holder: Option<Pid>)
    ensures multiset(Accounted(Handle(ctrl, inodeOk, holder))) <= multiset(AllFds(ctrl))
    ensures multiset(Accounted(Handle(ctrl, inodeOk, holder))) == multiset(AllFds(ctrl)) <==> Tidy(RightsOf(ctrl))
  {
    hide AllFds, RightsOf, Walk, Tidy;
    var w, all := Walk(ctrl, None, None), AllFds(ctrl);
    WalkCounts(ctrl, None, None);
    WalkFinds(ctrl, None, None);
    AccountedIsFound(ctrl, inodeOk, holder);
    assert |multiset(Found(w))| == |Found(w)| && |multiset(all)| == |all|;
    if |Found(w)| == |all| {
      SubMultisetEqual(multiset(Found(w)), multiset(all));
    }
  }

  lemma AccountedIsFound(ctrl: seq<Cmsg>, inodeOk: bool, holder: Option<Pid>)
    ensures Accounted(Handle(ctrl, inodeOk, holder)) == Found(Walk(ctrl, None, None))
  {
  }

  // -------------------------------------------------------------------------
  // When a dump is requested

  /** The first descriptor header that does not bring exactly two. */
  function FirstOdd(rights: seq<seq<Fd>>): Option<seq<Fd>> {
    if rights == [] then None else if |rights[0]| != 2 then Some(rights[0]) else FirstOdd(rights[1..])
  }

  predicate HasCredentials(ctrl: seq<Cmsg>) {
    exists i :: 0 <= i < |ctrl| && ctrl[i].Credentials?
  }

  lemma CredentialsUnfold(ctrl: seq<Cmsg>)
    requires ctrl != []
    ensures HasCredentials(ctrl) <==> ctrl[0].Credentials? || HasCredentials(ctrl[1..])
  {
    if i :| 0 <= i < |ctrl| && ctrl[i].Credentials? {
      assert i > 0 ==> ctrl[1..][i - 1] == ctrl[i];
    }
    assert forall i :: 0 <= i < |ctrl[1..]| ==> ctrl[1..][i] == ctrl[i + 1];
  }

  lemma OddUnfold(fds: seq<Fd>, rest: seq<seq<Fd>>)
    ensures FirstOdd([fds] + rest) == if |fds| != 2 then Some(fds) else FirstOdd(rest)
    ensures ([fds] + rest)[|rest|] == if rest == [] then fds else rest[|rest| - 1]
  {
    assert ([fds] + rest)[1..] == rest;
  }

  /** The walk stops at the first odd header; if there is none it ends with the last pair. */
  lemma {:induction false} WalkExactly(ctrl: seq<Cmsg>, pid: Option<Pid>, pair: Option<(Fd, Fd)>)
    ensures var w, rights := Walk(ctrl, pid, pair), RightsOf(ctrl);
            match FirstOdd(rights)
            case Some(fds) => w == Refused(fds)
            case None =>
              w.Complete? && (w.pid.Some? <==> pid.Some? || HasCredentials(ctrl)) &&
              PairFds(w.pair) == if rights == [] then PairFds(pair) else rights[|rights| - 1]
  {
    hide HasCredentials, AllFds, RightsOf, FirstOdd;
    if ctrl == [] {
      NothingToWalk();
    } else {
      RightsUnfold(ctrl);
      CredentialsUnfold(ctrl);
      var rest := ctrl[1..];
      if ctrl[0].Rights? {
        var fds := ctrl[0].fds;
        OddUnfold(fds, RightsOf(rest));
        if |fds| == 2 {
          assert fds == PairFds(Some((fds[0], fds[1])));
          WalkExactly(rest, pid, Some((fds[0], fds[1])));
        }
      } else {
        WalkExactly(rest, if ctrl[0].Credentials? then Some(ctrl[0].pid) else pid, pair);
      }
    }
  }

  lemma NothingToWalk()
    ensures RightsOf([]) == [] && FirstOdd([]) == None && !HasCredentials([])
  {
  }

  /**
    A dump is requested exactly for a message whose descriptor headers are all pairs, at least one,
    with credentials, whose first descriptor has an inode and whose socket has a holder. Then it is
    the dump of the holder, to be answered on the second descriptor of the last pair, and the first
    one is closed. Otherwise the descriptors of the first odd header, or of the last pair, are closed.
   */
  lemma DumpIsRequestedExactly(ctrl: seq<Cmsg>, inodeOk: bool, holder: Option<Pid>)
    ensures var h, rights := Handle(ctrl, inodeOk, holder), RightsOf(ctrl);
            if rights != [] && FirstOdd(rights).None? && HasCredentials(ctrl) && inodeOk && holder.Some? then
              var last := rights[|rights| - 1];
              |last| == 2 && h.closed == [last[0]] && h.task == Some(Task(holder.value, last[1]))
            else
              h.task == None &&
              h.closed == if FirstOdd(rights).Some? then FirstOdd(rights).value
                          else if rights == [] then [] else rights[|rights| - 1]
  {
    hide Walk, HasCredentials, RightsOf, FirstOdd;
    WalkExactly(ctrl, None, None);
    LastIsPair(RightsOf(ctrl));
  }

  lemma {:induction false} LastIsPair(rights: seq<seq<Fd>>)
    ensures rights != [] && FirstOdd(rights).None? ==> |rights[|rights| - 1]| == 2
  {
    if |rights| > 1 {
      LastIsPair(rights[1..]);
    }
  }

  // -------------------------------------------------------------------------
  // The handler as a method

  function FdSet(fds: seq<Fd>): set<Fd> {
    set i | 0 <= i < |fds| :: fds[i]
  }

  lemma OneOrTwo(a: Fd, b: Fd)
    ensures FdSet([]) == {} && FdSet([a]) == {a} && FdSet([a, b]) == {a, b}
  {
    assert [a, b][0] == a && [a, b][1] == b && [a][0] == a;
  }

  lemma FdSetSnoc(fds: seq<Fd>, i: nat)
    requires i < |fds|
    ensures FdSet(fds[..i + 1]) == FdSet(fds[..i]) + {fds[i]}
  {
    assert fds[..i + 1] == fds[..i] + [fds[i]];
    assert forall k :: 0 <= k < i ==> fds[..i + 1][k] == fds[..i][k];
    assert fds[..i + 1][i] == fds[i];
  }

  class CrashHandlerHost {
    /** The descriptors the process has open, and those it has closed, in order. */
    var open: set<Fd>
    var closed: seq<Fd>
    var fileThread: seq<Task>

    method Close(fd: Fd)
      requires fd in open
      modifies this`open, this`closed
      ensures open == old(open) - {fd} && closed == old(closed) + [fd]
    {
      open := open - {fd};
      closed := closed + [fd];
    }

    method CloseAll(fds: seq<Fd>)
      requires forall i :: 0 <= i < |fds| ==> fds[i] in open
      requires forall i, j :: 0 <= i < j < |fds| ==> fds[i] != fds[j]
      modifies this`open, this`closed
      ensures closed == old(closed) + fds && open == old(open) - FdSet(fds)
    {
      var i := 0;
      while i < |fds|
        invariant 0 <= i <= |fds|
        invariant closed == old(closed) + fds[..i]
        invariant open == old(open) - FdSet(fds[..i])
      {
        FdSetSnoc(fds, i);
        Close(fds[i]);
        i := i + 1;
      }
      assert fds[..i] == fds;
    }

    /** `OnFileCanReadWithoutBlocking` from the walk over the control data on. */
    method OnFileCanReadWithoutBlocking(ctrl: seq<Cmsg>, inodeOk: bool, holder: Option<Pid>)
      requires forall i :: 0 <= i < |AllFds(ctrl)| ==> AllFds(ctrl)[i] in open
      requires forall i, j :: 0 <= i < j < |AllFds(ctrl)| ==> AllFds(ctrl)[i] != AllFds(ctrl)[j]
      modifies this
      ensures var h := Handle(ctrl, inodeOk, holder);
              closed == old(closed) + h.closed &&
              open == old(open) - FdSet(h.closed) &&
              fileThread == old(fileThread) + if h.task.Some? then [h.task.value] else []
    {
      hide AllFds, Walk, FdSet;
      var crashingPid: Option<Pid>, partner: Option<Fd>, signal: Option<Fd> := None, None, None;
      ghost var pair: Option<(Fd, Fd)> := None;
      var k := 0;
      assert ctrl[0..] == ctrl;
      while k < |ctrl|
        invariant 0 <= k <= |ctrl|
        invariant unchanged(this)
        invariant pair == (if partner.Some? && signal.Some? then Some((partner.value, signal.value)) else None)
        invariant partner.Some? <==> signal.Some?
        invariant partner.Some? ==> partner.value in open && signal.value in open && partner.value != signal.value
        invariant Walk(ctrl, None, None) == Walk(ctrl[k..], crashingPid, pair)
      {
        WalkUnfold(ctrl, k, crashingPid, pair);
        match ctrl[k] {
          case Rights(fds) =>
            ghost var at := FdsOf(ctrl, k);
            assert forall i :: 0 <= i < |fds| ==> fds[i] == AllFds(ctrl)[at + i];
            if |fds| != 2 {
              CloseAll(fds);
              return;
            }
            partner, signal := Some(fds[0]), Some(fds[1]);
            pair := Some((fds[0], fds[1]));
          case Credentials(pid) => crashingPid := Some(pid);
          case OtherHeader =>
        }
        k := k + 1;
      }
      WalkNil(ctrl[k..], crashingPid, pair);
      OneOrTwo(partner.GetOr(0), signal.GetOr(0));
      if crashingPid.None? || partner.None? || signal.None? {
        if partner.Some? {
          Close(partner.value);
        }
        if signal.Some? {
          Close(signal.value);
        }
        return;
      }
      if !inodeOk {
        Close(partner.value);
        Close(signal.value);
        return;
      }
      Close(partner.value);
      if holder.None? {
        Close(signal.value);
        return;
      }
      fileThread := fileThread + [Task(holder.value, signal.value)];
    }
  }

  lemma WalkUnfold(ctrl: seq<Cmsg>, k: nat, pid: Option<Pid>, pair: Option<(Fd, Fd)>)
    requires k < |ctrl|
    ensures ctrl[k].Rights? ==>
            var fds := ctrl[k].fds;
            Walk(ctrl[k..], pid, pair) ==
            if |fds| != 2 then Refused(fds) else Walk(ctrl[k + 1..], pid, Some((fds[0], fds[1])))
    ensures ctrl[k].Credentials? ==> Walk(ctrl[k..], pid, pair) == Walk(ctrl[k + 1..], Some(ctrl[k].pid), pair)
    ensures ctrl[k].OtherHeader? ==> Walk(ctrl[k..], pid, pair) == Walk(ctrl[k + 1..], pid, pair)
  {
    var left := ctrl[k..];
    assert left[0] == ctrl[k] && left[1..] == ctrl[k + 1..];
  }

  lemma WalkNil(ctrl: seq<Cmsg>, pid: Option<Pid>, pair: Option<(Fd, Fd)>)
    requires ctrl == []
    ensures Walk(ctrl, pid, pair) == Complete(pid, pair)
  {
  }

  /** The descriptors of one header are a stretch of all descriptors. */
  lemma {:induction false} FdsOf(ctrl: seq<Cmsg>, k: nat) returns (at: nat)
    requires k < |ctrl| && ctrl[k].Rights?
    ensures at + |ctrl[k].fds| <= |AllFds(ctrl)|
    ensures ctrl[k].fds == AllFds(ctrl)[at..at + |ctrl[k].fds|]
  {
    var rest := RightsOf(ctrl[1..]);
    if ctrl[0].Rights? {
      assert RightsOf(ctrl)[1..] == rest;
      assert AllFds(ctrl) == ctrl[0].fds + Concat(rest);
    } else {
      assert RightsOf(ctrl) == rest;
    }
    if k == 0 {
      at := 0;
    } else {
      at := FdsOf(ctrl[1..], k - 1);
      if ctrl[0].Rights? {
        var n := |ctrl[0].fds|;
        assert AllFds(ctrl)[n + at..n + at + |ctrl[k].fds|] == Concat(rest)[at..at + |ctrl[k].fds|];
        at := n + at;
      }
    }
  }
}
