/**
 * The packet-pass interface told from outside: the packets the sender hands over, of which it asked to cancel, and
 * with which the receiver was done, all from the calls alone. What the interface passes on is exactly that.
 */
module PacketPassAccount {
  import opened Common
  import opened PacketPass

  /** A packet handed over, whether the sender asked to cancel it, and whether the receiver was done with it. */
  datatype Sent = Sent(data: seq<Byte>, asked: bool, done: bool)

  datatype Told = Told(mtu: nat, hasCancel: bool, sent: seq<Sent>)

  type Account = map<nat, Told>

  /** The packet sent last, as a call changes it. */
  function Last(t: Told): Sent
    requires t.sent != []
  {
    t.sent[|t.sent| - 1]
  }

  function WithLastSent(t: Told, p: Sent): Told
    requires t.sent != []
  {
    t.(sent := t.sent[|t.sent| - 1 := p])
  }

  /** What a call to an interface adds. */
  function Add(t: Told, e: Event): Told {
    match e
    case EnableCancel(_) => t.(hasCancel := true)
    case Send(_, data) => t.(sent := t.sent + [Sent(data, false, false)])
    case RequestCancel(_) => if t.sent == [] then t else WithLastSent(t, Last(t).(asked := true))
    case Done(_) => if t.sent == [] then t else WithLastSent(t, Last(t).(done := true))
    case _ => t
  }

  function Record(a: Account, e: Event): Account {
    match e
    case Init(i, mtu) => a[i := Told(mtu, false, [])]
    case Free(i) => a - {i}
    case Execute => a
    case SetOther(_) => a
    case UnsetOther(_) => a
    case _ => if e.i in a then a[e.i := Add(a[e.i], e)] else a
  }

  function RecordAll(a: Account, es: seq<Event>): Account
    decreases |es|
  {
    if es == [] then a else RecordAll(Record(a, es[0]), es[1..])
  }

  predicate SameRound(r: Round, p: Sent) {
    r.data == p.data && r.asked == p.asked && (ReceiverDone in r.marks <==> p.done)
  }

  /** The interface has seen exactly the packets it was told of. */
  ghost predicate AsTold(f: Interface, t: Told) {
    && f.mtu == t.mtu && f.hasCancel == t.hasCancel && |f.rounds| == |t.sent|
    && forall k :: 0 <= k < |f.rounds| ==> SameRound(f.rounds[k], t.sent[k])
  }

  ghost predicate Agree(s: System, a: Account) {
    && s.interfaces.Keys == a.Keys
    && forall i :: i in s.interfaces ==> AsTold(s.interfaces[i], a[i])
  }

  lemma NoteAsTold(f: Interface, t: Told, m: Mark, p: Phase)
    requires AsTold(f, t)
    ensures m != ReceiverDone ==> AsTold(Note(f, m).(phase := p), t)
    ensures m == ReceiverDone ==> AsTold(Note(f, m).(phase := p), if t.sent == [] then t
              else WithLastSent(t, Last(t).(done := true)))
  {
  }

  lemma AskAsTold(f: Interface, t: Told)
    requires AsTold(f, t) && InterfaceOk(f)
    ensures AsTold(AskCancel(f), if t.sent == [] then t else WithLastSent(t, Last(t).(asked := true)))
  {
    hide RoundOk, Finished;
    if f.rounds != [] {
      assert SameRound(LastRound(f), Last(t));
    }
  }

  lemma SendAsTold(f: Interface, t: Told, data: seq<Byte>)
    requires AsTold(f, t)
    ensures AsTold(SendTo(f, data), t.(sent := t.sent + [Sent(data, false, false)]))
  {
  }

  lemma JobAsTold(f: Interface, t: Told)
    requires AsTold(f, t)
    ensures AsTold(RunOperation(f), t) && AsTold(RunCancel(f), t) && AsTold(RunDone(f), t)
  {
    hide AsTold, Note;
    NoteAsTold(f, t, Operation(f.data), Busy);
    NotePhase(f, CancelCall);
    NoteAsTold(f, t, CancelCall, f.phase);
    NoteAsTold(f, t, Completed, Ready);
  }

  lemma NotePhase(f: Interface, m: Mark)
    ensures Note(f, m).(phase := f.phase) == Note(f, m)
  {
  }

  /** The account stays true with every call and every job. */
  lemma StepAgrees(s: System, a: Account, e: Event)
    requires Inv(s) && Enabled(s, e) && Agree(s, a)
    ensures Agree(Step(s, e), Record(a, e))
  {
    hide AsTold, Note, AskCancel, SendTo, InterfaceOk, JobsMatch, RunOperation, RunCancel, RunDone;
    match e {
      case Init(i, mtu) => FreshAsTold(mtu);
      case EnableCancel(i) => EnableAsTold(s.interfaces[i], a[i]);
      case Send(i, data) => SendAsTold(s.interfaces[i], a[i], data);
      case RequestCancel(i) =>
        InterfaceFacts(s, i);
        AskAsTold(s.interfaces[i], a[i]);
      case Done(i) => NoteAsTold(s.interfaces[i], a[i], ReceiverDone, DonePending);
      case Execute =>
        var j := s.jobs[0];
        if !j.OtherJob? && j.i in s.interfaces {
          JobAsTold(s.interfaces[j.i], a[j.i]);
        }
      case _ =>
    }
  }

  lemma FreshAsTold(mtu: nat)
    ensures AsTold(Fresh(mtu), Told(mtu, false, []))
  {
  }

  lemma EnableAsTold(f: Interface, t: Told)
    requires AsTold(f, t)
    ensures AsTold(f.(hasCancel := true), t.(hasCancel := true))
  {
  }

  lemma {:induction false} RunAgrees(s: System, a: Account, es: seq<Event>)
    requires Inv(s) && CanRun(s, es) && Agree(s, a)
    ensures Agree(Run(s, es), RecordAll(a, es))
    decreases |es|
  {
    hide Inv, Step, Enabled, Agree, Record;
    if es != [] {
      StepKeeps(s, es[0]);
      StepAgrees(s, a, es[0]);
      RunAgrees(Step(s, es[0]), Record(a, es[0]), es[1..]);
    }
  }

  /** What is seen of a packet that is no longer under way, in terms of what was told. */
  predicate Passed(r: Round, p: Sent) {
    if p.done then
      || r.marks == [Operation(p.data), ReceiverDone, Completed]
      || (p.asked && r.marks == [Operation(p.data), CancelCall, ReceiverDone, Completed])
    else p.asked && r.marks == [Completed]
  }

  /** What is seen of the packet under way. */
  predicate Passing(phase: Phase, r: Round, p: Sent) {
    match phase
    case Ready => Passed(r, p)
    case OperationPending => !p.asked && !p.done && r.marks == []
    case Busy => !p.done && (r.marks == [Operation(p.data)] || (p.asked && r.marks == [Operation(p.data), CancelCall]))
    case DonePending =>
      if p.done then
        || r.marks == [Operation(p.data), ReceiverDone]
        || (p.asked && r.marks == [Operation(p.data), CancelCall, ReceiverDone])
      else p.asked && r.marks == []
  }

  lemma FinishedPassed(r: Round, p: Sent)
    requires SameRound(r, p) && Finished(r)
    ensures Passed(r, p)
  {
    var b := r.marks[..|r.marks| - 1];
    assert r.marks == b + [Completed];
    assert forall m :: m in r.marks <==> m in b || m == Completed;
  }

  lemma UnderWay(phase: Phase, r: Round, p: Sent)
    requires SameRound(r, p) && RoundOk(phase, r)
    ensures Passing(phase, r, p)
  {
    if phase.Ready? {
      FinishedPassed(r, p);
    }
  }

  /**
   * In every run the packets of an interface are exactly those its sender handed over since it was initialised, in
   * order. The receiver got each as it was handed over, unless the sender asked to cancel it first, and reported done
   * itself; the sender is told after that. Only the last packet may be under way.
   */
  lemma EveryPacket(es: seq<Event>, i: nat, k: nat)
    requires CanRun(EMPTY, es) && i in Run(EMPTY, es).interfaces
    ensures var f, a := Run(EMPTY, es).interfaces[i], RecordAll(map[], es);
      && i in a && f.mtu == a[i].mtu && f.hasCancel == a[i].hasCancel && |f.rounds| == |a[i].sent|
      && (k < |f.rounds| ==> SameRound(f.rounds[k], a[i].sent[k]))
      && (k + 1 < |f.rounds| ==> Passed(f.rounds[k], a[i].sent[k]))
      && (k + 1 == |f.rounds| ==> Passing(f.phase, f.rounds[k], a[i].sent[k]))
  {
    hide Run, CanRun, RecordAll, Passed, Passing, SameRound, RoundOk, Finished, JobsMatch;
    var s, a := Run(EMPTY, es), RecordAll(map[], es);
    InitAgrees();
    RunKeeps(EMPTY, es);
    RunAgrees(EMPTY, map[], es);
    InterfaceFacts(s, i);
    if k < |s.interfaces[i].rounds| {
      var r, p := s.interfaces[i].rounds[k], a[i].sent[k];
      if k + 1 < |s.interfaces[i].rounds| {
        FinishedPassed(r, p);
      } else {
        UnderWay(s.interfaces[i].phase, r, p);
      }
    }
  }

  lemma InitAgrees()
    ensures Inv(EMPTY) && Agree(EMPTY, map[])
  {
  }

  // ---- the job a call leaves is the next to run ----

  lemma SendThenExecute(s: System, i: nat, data: seq<Byte>)
    requires Inv(s) && Enabled(s, Send(i, data))
    ensures var s1 := Step(s, Send(i, data));
      && Enabled(s1, Execute)
      && var s2 := Step(s1, Execute);
      && s2.jobs == s.jobs && i in s2.interfaces && s2.interfaces[i].phase.Busy?
      && s2.interfaces[i].rounds == s.interfaces[i].rounds + [Round(data, false, [Operation(data)])]
  {
    hide InterfaceOk;
    InterfaceFacts(s, i);
    WithoutAbsent(s.jobs, OperationJob(i));
    assert ([OperationJob(i)] + s.jobs)[1..] == s.jobs;
    SendThenOperation(s.interfaces[i], data);
  }

  lemma SendThenOperation(f: Interface, data: seq<Byte>)
    ensures RunOperation(SendTo(f, data)).rounds == f.rounds + [Round(data, false, [Operation(data)])]
  {
    var none: seq<Mark> := [];
    assert none + [Operation(data)] == [Operation(data)];
    assert (f.rounds + [Round(data, false, none)])[|f.rounds| := Round(data, false, [Operation(data)])]
        == f.rounds + [Round(data, false, [Operation(data)])];
  }

  /** When the receiver is done, the next job tells the sender, even if a call to cancel was pending. */
  lemma DoneThenExecute(s: System, i: nat)
    requires Inv(s) && Enabled(s, Done(i))
    ensures var s1 := Step(s, Done(i));
      && Enabled(s1, Execute)
      && var s2 := Step(s1, Execute);
      && s2.jobs == Without(s.jobs, CancelJob(i)) && i in s2.interfaces && s2.interfaces[i].phase.Ready?
      && s2.interfaces[i].rounds != [] && s.interfaces[i].rounds != []
      && LastRound(s2.interfaces[i]) ==
           LastRound(s.interfaces[i]).(marks := LastRound(s.interfaces[i]).marks + [ReceiverDone, Completed])
  {
    hide Inv, RoundOk, Finished, CancelDue, RunDone, ReceiverIsDone, DoneJobs;
    InterfaceFacts(s, i);
    DoneJobNext(s.jobs, i);
    DoneThenTold(s.interfaces[i]);
  }

  lemma DoneJobNext(jobs: seq<Job>, i: nat)
    requires DoneJob(i) !in jobs
    ensures var after := DoneJobs(jobs, i);
      after != [] && after[0] == DoneJob(i) && after[1..] == Without(jobs, CancelJob(i))
  {
    WithoutAbsent(Without(jobs, CancelJob(i)), DoneJob(i));
  }

  lemma DoneThenTold(f: Interface)
    requires f.rounds != []
    ensures var g := RunDone(ReceiverIsDone(f));
      && g.rounds != [] && g.phase.Ready?
      && LastRound(g) == LastRound(f).(marks := LastRound(f).marks + [ReceiverDone, Completed])
  {
    var ms := LastRound(f).marks;
    assert ms + [ReceiverDone] + [Completed] == ms + [ReceiverDone, Completed];
  }

  /** A request to cancel a packet the receiver has reaches it next, once; one it has not got never reaches it. */
  lemma CancelThenExecute(s: System, i: nat)
    requires Inv(s) && Enabled(s, RequestCancel(i)) && !s.interfaces[i].cancelRequested
    requires !s.interfaces[i].phase.DonePending?
    ensures var s1 := Step(s, RequestCancel(i));
      && Enabled(s1, Execute)
      && var s2 := Step(s1, Execute);
      && i in s2.interfaces && s2.interfaces[i].rounds != [] && s.interfaces[i].rounds != []
      && LastRound(s2.interfaces[i]).data == LastRound(s.interfaces[i]).data && LastRound(s2.interfaces[i]).asked
      && (s.interfaces[i].phase.Busy? ==>
            && s2.interfaces[i].phase.Busy?
            && LastRound(s2.interfaces[i]).marks == [Operation(LastRound(s.interfaces[i]).data), CancelCall])
      && (s.interfaces[i].phase.OperationPending? ==>
            s2.interfaces[i].phase.Ready? && LastRound(s2.interfaces[i]).marks == [Completed])
  {
    hide Inv, InterfaceOk, JobsMatch, AskCancel, RunCancel, RunDone;
    InterfaceFacts(s, i);
    var f := s.interfaces[i];
    if f.phase.Busy? {
      CancelReaches(f);
    } else {
      CancelWithdraws(f);
    }
  }

  lemma CancelReaches(f: Interface)
    requires InterfaceOk(f) && f.phase.Busy? && !f.cancelRequested
    ensures var g := RunCancel(AskCancel(f));
      && f.rounds != [] && g.rounds != [] && g.phase.Busy?
      && LastRound(g) == Round(LastRound(f).data, true, [Operation(LastRound(f).data), CancelCall])
  {
    hide Finished;
    var r := LastRound(f);
    assert r.marks == [Operation(r.data)];
    assert r.marks + [CancelCall] == [Operation(r.data), CancelCall];
  }

  lemma CancelWithdraws(f: Interface)
    requires InterfaceOk(f) && f.phase.OperationPending? && !f.cancelRequested
    ensures var g := RunDone(AskCancel(f));
      && f.rounds != [] && g.rounds != [] && g.phase.Ready? &&
          LastRound(g) == Round(LastRound(f).data, true, [Completed])
  {
    hide Finished;
    var r := LastRound(f);
    assert r.marks + [Completed] == [Completed];
  }
}
