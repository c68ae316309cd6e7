/**
 * The packet-pass interface of flow/PacketPassInterface.h over the job list of base/BPending.c. Any number of
 * interfaces share one list of jobs; the job set last runs first. Calls that handlers make are events of their own,
 * between the job that called the handler and the next job.
 */
module PacketPass {
  import opened Common

  datatype Phase = Ready | OperationPending | Busy | DonePending

  /**
   * What is seen of one packet: it reaches the receiver, the receiver is asked to cancel, is done, and the sender is
   * told.
   */
  datatype Mark = Operation(data: seq<Byte>) | CancelCall | ReceiverDone | Completed

  /** Everything that happened about one packet sent; `asked` says whether the sender asked to cancel. */
  datatype Round = Round(data: seq<Byte>, asked: bool, marks: seq<Mark>)

  datatype Interface = Interface(phase: Phase, cancelRequested: bool, hasCancel: bool, mtu: nat, data: seq<Byte>,
                                 rounds: seq<Round>)

  datatype Job = OperationJob(i: nat) | CancelJob(i: nat) | DoneJob(i: nat) | OtherJob(n: nat)

  datatype System = System(interfaces: map<nat, Interface>, jobs: seq<Job>)

  // ---- the job list ----

  function SetJob(jobs: seq<Job>, j: Job): seq<Job> { [j] + Without(jobs, j) }
  function UnsetJob(jobs: seq<Job>, j: Job): seq<Job> { Without(jobs, j) }

  lemma SetJobOnce(jobs: seq<Job>, j: Job)
    requires NoDup(jobs)
    ensures NoDup(SetJob(jobs, j)) && NoDup(UnsetJob(jobs, j))
  {
    WithoutNoDup(jobs, j);
  }

  // ---- calls and handlers, on one interface ----

  function LastRound(f: Interface): Round
    requires f.rounds != []
  {
    f.rounds[|f.rounds| - 1]
  }

  function WithLast(f: Interface, r: Round): Interface
    requires f.rounds != []
  {
    f.(rounds := f.rounds[|f.rounds| - 1 := r])
  }

  function Note(f: Interface, m: Mark): Interface {
    if f.rounds == [] then f else WithLast(f, LastRound(f).(marks := LastRound(f).marks + [m]))
  }

  function SendTo(f: Interface, data: seq<Byte>): Interface {
    f.(phase := OperationPending, cancelRequested := false, data := data, rounds := f.rounds + [Round(data, false, [])])
  }

  function AskCancel(f: Interface): Interface {
    if f.cancelRequested || f.rounds == [] then f
    else
      WithLast(f, LastRound(f).(asked := true))
        .(cancelRequested := true, phase := if f.phase.OperationPending? then DonePending else f.phase)
  }

  function ReceiverIsDone(f: Interface): Interface { Note(f, ReceiverDone).(phase := DonePending) }
  function RunOperation(f: Interface): Interface { Note(f, Operation(f.data)).(phase := Busy) }
  function RunCancel(f: Interface): Interface { Note(f, CancelCall) }
  function RunDone(f: Interface): Interface { Note(f, Completed).(phase := Ready) }

  /** The jobs after a request to cancel. */
  function CancelJobs(jobs: seq<Job>, f: Interface, i: nat): seq<Job> {
    if f.cancelRequested then jobs
    else if f.phase.OperationPending? then SetJob(UnsetJob(jobs, OperationJob(i)), DoneJob(i))
    else if f.phase.Busy? then SetJob(jobs, CancelJob(i))
    else jobs
  }

  function DoneJobs(jobs: seq<Job>, i: nat): seq<Job> {
    SetJob(UnsetJob(jobs, CancelJob(i)), DoneJob(i))
  }

  /** BPending_Free takes a pending job off the list. */
  function FreeJobs(jobs: seq<Job>, i: nat): seq<Job> {
    UnsetJob(UnsetJob(UnsetJob(jobs, DoneJob(i)), CancelJob(i)), OperationJob(i))
  }

  function Fresh(mtu: nat): Interface {
    Interface(Ready, false, false, mtu, [], [])
  }

  // ---- the system ----

  /** No interface, and no job pending. */
  const EMPTY := System(map[], [])

  datatype Event =
    | Init(i: nat, mtu: nat) | EnableCancel(i: nat) | Free(i: nat)
    | Send(i: nat, data: seq<Byte>) | RequestCancel(i: nat) | Done(i: nat)
    | Execute
    | SetOther(n: nat) | UnsetOther(n: nat)

  /** The calls that may be made: what the interface asserts. */
  predicate Enabled(s: System, e: Event) {
    match e
    case Init(i, _) => i !in s.interfaces
    case EnableCancel(i) => i in s.interfaces && !s.interfaces[i].hasCancel && s.interfaces[i].rounds == []
    case Free(i) => i in s.interfaces
    case Send(i, data) => i in s.interfaces && s.interfaces[i].phase.Ready? && |data| <= s.interfaces[i].mtu
    case RequestCancel(i) => i in s.interfaces && !s.interfaces[i].phase.Ready? && s.interfaces[i].hasCancel
    case Done(i) => i in s.interfaces && s.interfaces[i].phase.Busy?
    case Execute => s.jobs != []
    case _ => true
  }

  function Put(s: System, i: nat, f: Interface, jobs: seq<Job>): System {
    System(s.interfaces[i := f], jobs)
  }

  function RunJob(s: System, j: Job): System {
    match j
    case OperationJob(i) => if i in s.interfaces then Put(s, i, RunOperation(s.interfaces[i]), s.jobs) else s
    case CancelJob(i) => if i in s.interfaces then Put(s, i, RunCancel(s.interfaces[i]), s.jobs) else s
    case DoneJob(i) => if i in s.interfaces then Put(s, i, RunDone(s.interfaces[i]), s.jobs) else s
    case OtherJob(_) => s
  }

  function Step(s: System, e: Event): System
    requires Enabled(s, e)
  {
    match e
    case Init(i, mtu) => Put(s, i, Fresh(mtu), s.jobs)
    case EnableCancel(i) => Put(s, i, s.interfaces[i].(hasCancel := true), s.jobs)
    case Free(i) => System(s.interfaces - {i}, FreeJobs(s.jobs, i))
    case Send(i, data) => Put(s, i, SendTo(s.interfaces[i], data), SetJob(s.jobs, OperationJob(i)))
    case RequestCancel(i) => Put(s, i, AskCancel(s.interfaces[i]), CancelJobs(s.jobs, s.interfaces[i], i))
    case Done(i) => Put(s, i, ReceiverIsDone(s.interfaces[i]), DoneJobs(s.jobs, i))
    case Execute => RunJob(s.(jobs := s.jobs[1..]), s.jobs[0])
    case SetOther(n) => s.(jobs := SetJob(s.jobs, OtherJob(n)))
    case UnsetOther(n) => s.(jobs := UnsetJob(s.jobs, OtherJob(n)))
  }

  // ---- the protocol ----

  /**
   * The packet was withdrawn before the receiver saw it, or the receiver took it and finished, perhaps asked once to
   * cancel.
   */
  predicate Answered(r: Round) {
    || (r.asked && r.marks == [])
    || r.marks == [Operation(r.data), ReceiverDone]
    || (r.asked && r.marks == [Operation(r.data), CancelCall, ReceiverDone])
  }

  /** Of an answered packet the sender is told once, at the end. */
  predicate Finished(r: Round) {
    |r.marks| > 0 && r.marks[|r.marks| - 1] == Completed && Answered(r.(marks := r.marks[..|r.marks| - 1]))
  }

  predicate AtReceiver(r: Round) {
    r.marks == [Operation(r.data)] || (r.asked && r.marks == [Operation(r.data), CancelCall])
  }

  predicate RoundOk(p: Phase, r: Round) {
    match p
    case Ready => Finished(r)
    case OperationPending => !r.asked && r.marks == []
    case Busy => AtReceiver(r)
    case DonePending => Answered(r)
  }

  /** All earlier packets are finished, and the last one is where the phase says. */
  ghost predicate InterfaceOk(f: Interface) {
    && (f.rounds == [] ==> f.phase.Ready?)
    && (forall k :: 0 <= k < |f.rounds| - 1 ==> Finished(f.rounds[k]))
    && (f.rounds != [] ==> RoundOk(f.phase, LastRound(f)))
    && (f.rounds != [] ==> LastRound(f).asked == f.cancelRequested && LastRound(f).data == f.data)
    && (f.rounds != [] && f.cancelRequested ==> f.hasCancel)
  }

  /** The receiver has yet to hear of a request to cancel. */
  predicate CancelDue(f: Interface) {
    f.phase.Busy? && f.cancelRequested && f.rounds != [] && LastRound(f).marks == [Operation(f.data)]
  }

  /** The jobs of an interface that are pending are those its phase calls for. */
  ghost predicate JobsMatch(f: Interface, i: nat, jobs: seq<Job>) {
    && (OperationJob(i) in jobs <==> f.phase.OperationPending?)
    && (CancelJob(i) in jobs <==> CancelDue(f))
    && (DoneJob(i) in jobs <==> f.phase.DonePending?)
  }

  ghost predicate Owned(s: System, j: Job) {
    j.OtherJob? || j.i in s.interfaces
  }

  ghost predicate Inv(s: System) {
    && NoDup(s.jobs)
    && (forall j :: j in s.jobs ==> Owned(s, j))
    && (forall i :: i in s.interfaces ==> InterfaceOk(s.interfaces[i]) && JobsMatch(s.interfaces[i], i, s.jobs))
  }

  // ---- every interface keeps to the protocol ----

  lemma SendToOk(f: Interface, data: seq<Byte>)
    requires InterfaceOk(f) && f.phase.Ready?
    ensures InterfaceOk(SendTo(f, data))
  {
  }

  lemma AskCancelOk(f: Interface)
    requires InterfaceOk(f) && !f.phase.Ready? && f.hasCancel
    ensures InterfaceOk(AskCancel(f))
    ensures !f.cancelRequested && f.phase.Busy? ==> CancelDue(AskCancel(f))
    ensures f.phase.Busy? && !f.cancelRequested ==> AskCancel(f).phase.Busy?
    ensures !f.phase.Busy? ==> !CancelDue(AskCancel(f))
  {
  }

  lemma ReceiverIsDoneOk(f: Interface)
    requires InterfaceOk(f) && f.phase.Busy?
    ensures InterfaceOk(ReceiverIsDone(f)) && ReceiverIsDone(f).phase.DonePending?
  {
    var r := LastRound(f);
    assert r.marks + [ReceiverDone] ==
             if r.marks == [Operation(r.data)] then [Operation(r.data), ReceiverDone]
             else [Operation(r.data), CancelCall, ReceiverDone];
  }

  lemma RunOperationOk(f: Interface)
    requires InterfaceOk(f) && f.phase.OperationPending?
    ensures InterfaceOk(RunOperation(f)) && RunOperation(f).phase.Busy? && !CancelDue(RunOperation(f))
  {
    assert LastRound(f).marks + [Operation(f.data)] == [Operation(f.data)];
  }

  lemma RunCancelOk(f: Interface)
    requires InterfaceOk(f) && CancelDue(f)
    ensures InterfaceOk(RunCancel(f)) && RunCancel(f).phase.Busy? && !CancelDue(RunCancel(f)) && f.hasCancel
  {
    assert LastRound(f).marks + [CancelCall] == [Operation(f.data), CancelCall];
  }

  lemma RunDoneOk(f: Interface)
    requires InterfaceOk(f) && f.phase.DonePending?
    ensures InterfaceOk(RunDone(f)) && RunDone(f).phase.Ready?
  {
    var r := LastRound(f);
    assert (r.marks + [Completed])[..|r.marks|] == r.marks;
  }

  // ---- and the jobs match ----

  ghost predicate OthersMatch(s: System, i: nat, jobs: seq<Job>) {
    && NoDup(jobs)
    && (forall j :: j in jobs ==> Owned(s, j))
    && (forall k :: k in s.interfaces && k != i ==> JobsMatch(s.interfaces[k], k, jobs))
  }

  lemma PutKeeps(s: System, i: nat, f: Interface, jobs: seq<Job>)
    requires Inv(s) && i in s.interfaces && InterfaceOk(f) && JobsMatch(f, i, jobs) && OthersMatch(s, i, jobs)
    ensures Inv(Put(s, i, f, jobs))
  {
    hide InterfaceOk, JobsMatch;
    var t := Put(s, i, f, jobs);
    forall j | j in t.jobs
      ensures Owned(t, j)
    {
      assert Owned(s, j);
    }
  }

  lemma SetMatches(s: System, i: nat, jobs: seq<Job>, j: Job)
    requires OthersMatch(s, i, jobs) && i in s.interfaces && !j.OtherJob? && j.i == i
    ensures OthersMatch(s, i, SetJob(jobs, j)) && OthersMatch(s, i, UnsetJob(jobs, j))
  {
    hide CancelDue;
    SetJobOnce(jobs, j);
    assert Owned(s, j);
  }

  lemma OthersFromInv(s: System, i: nat)
    requires Inv(s)
    ensures OthersMatch(s, i, s.jobs)
  {
  }

  lemma SendKeeps(s: System, i: nat, data: seq<Byte>)
    requires Inv(s) && Enabled(s, Send(i, data))
    ensures Inv(Step(s, Send(i, data)))
  {
    hide InterfaceOk, OthersMatch;
    var f := s.interfaces[i];
    SendToOk(f, data);
    OthersFromInv(s, i);
    SetMatches(s, i, s.jobs, OperationJob(i));
    assert JobsMatch(f, i, s.jobs);
    PutKeeps(s, i, SendTo(f, data), SetJob(s.jobs, OperationJob(i)));
  }

  lemma CancelKeeps(s: System, i: nat)
    requires Inv(s) && Enabled(s, RequestCancel(i))
    ensures Inv(Step(s, RequestCancel(i)))
  {
    hide InterfaceOk, OthersMatch, Inv;
    InterfaceFacts(s, i);
    var f := s.interfaces[i];
    AskCancelOk(f);
    OthersFromInv(s, i);
    SetMatches(s, i, s.jobs, OperationJob(i));
    SetMatches(s, i, UnsetJob(s.jobs, OperationJob(i)), DoneJob(i));
    SetMatches(s, i, s.jobs, CancelJob(i));
    CancelMatches(f, i, s.jobs);
    PutKeeps(s, i, AskCancel(f), CancelJobs(s.jobs, f, i));
  }

  lemma InterfaceFacts(s: System, i: nat)
    requires Inv(s) && i in s.interfaces
    ensures InterfaceOk(s.interfaces[i]) && JobsMatch(s.interfaces[i], i, s.jobs)
  {
  }

  lemma CancelMatches(f: Interface, i: nat, jobs: seq<Job>)
    requires InterfaceOk(f) && !f.phase.Ready? && f.hasCancel && JobsMatch(f, i, jobs)
    ensures JobsMatch(AskCancel(f), i, CancelJobs(jobs, f, i))
  {
    AskCancelOk(f);
  }

  lemma DoneKeeps(s: System, i: nat)
    requires Inv(s) && Enabled(s, Done(i))
    ensures Inv(Step(s, Done(i)))
  {
    hide InterfaceOk, OthersMatch, Inv;
    InterfaceFacts(s, i);
    var f := s.interfaces[i];
    ReceiverIsDoneOk(f);
    OthersFromInv(s, i);
    SetMatches(s, i, s.jobs, CancelJob(i));
    SetMatches(s, i, UnsetJob(s.jobs, CancelJob(i)), DoneJob(i));
    PutKeeps(s, i, ReceiverIsDone(f), DoneJobs(s.jobs, i));
  }

  lemma FirstJobGone(s: System)
    requires Inv(s) && s.jobs != []
    ensures NoDup(s.jobs[1..]) && s.jobs[0] !in s.jobs[1..]
    ensures forall j :: j in s.jobs <==> j == s.jobs[0] || j in s.jobs[1..]
  {
    assert s.jobs == [s.jobs[0]] + s.jobs[1..];
  }

  /** Each job finds its interface in the phase it asserts. */
  lemma JobAsserts(s: System)
    requires Inv(s) && s.jobs != [] && !s.jobs[0].OtherJob?
    ensures var j := s.jobs[0];
            && j.i in s.interfaces && InterfaceOk(s.interfaces[j.i])
            && (j.OperationJob? ==> s.interfaces[j.i].phase.OperationPending?)
            && (j.CancelJob? ==> CancelDue(s.interfaces[j.i]) && s.interfaces[j.i].hasCancel)
            && (j.DoneJob? ==> s.interfaces[j.i].phase.DonePending?)
  {
    var j := s.jobs[0];
    assert j in s.jobs;
    assert Owned(s, j);
    InterfaceFacts(s, j.i);
  }

  lemma ExecuteKeeps(s: System)
    requires Inv(s) && s.jobs != []
    ensures Inv(Step(s, Execute))
  {
    hide InterfaceOk, CancelDue, OthersMatch, Inv;
    var j, rest := s.jobs[0], s.jobs[1..];
    FirstJobGone(s);
    RestMatches(s);
    if !j.OtherJob? {
      JobAsserts(s);
      var f := s.interfaces[j.i];
      InterfaceFacts(s, j.i);
      match j {
        case OperationJob(i) =>
          RunOperationOk(f);
          NotBusy(f);
          PutKeeps(s, i, RunOperation(f), rest);
        case CancelJob(i) =>
          RunCancelOk(f);
          CancelBusy(f);
          PutKeeps(s, i, RunCancel(f), rest);
        case DoneJob(i) =>
          RunDoneOk(f);
          NotBusy(f);
          NotBusy(RunDone(f));
          PutKeeps(s, i, RunDone(f), rest);
      }
    }
  }

  lemma RestMatches(s: System)
    requires Inv(s) && s.jobs != []
    ensures s.jobs[0].OtherJob? ==> Inv(s.(jobs := s.jobs[1..]))
    ensures !s.jobs[0].OtherJob? ==> OthersMatch(s, s.jobs[0].i, s.jobs[1..])
  {
    hide InterfaceOk, CancelDue;
    FirstJobGone(s);
  }

  lemma CancelBusy(f: Interface)
    requires CancelDue(f)
    ensures f.phase.Busy?
  {
  }

  lemma NotBusy(f: Interface)
    requires !f.phase.Busy?
    ensures !CancelDue(f)
  {
  }

  lemma OtherKeeps(s: System, n: nat)
    requires Inv(s)
    ensures Inv(s.(jobs := SetJob(s.jobs, OtherJob(n)))) && Inv(s.(jobs := UnsetJob(s.jobs, OtherJob(n))))
  {
    hide InterfaceOk, CancelDue;
    SetJobOnce(s.jobs, OtherJob(n));
  }

  lemma InitKeeps(s: System, i: nat, mtu: nat)
    requires Inv(s) && i !in s.interfaces
    ensures Inv(Step(s, Init(i, mtu)))
  {
    hide CancelDue, JobsMatch;
    var t := Step(s, Init(i, mtu));
    forall j | j in t.jobs ensures Owned(t, j) {
      assert Owned(s, j);
    }
    FreshMatches(s, i, mtu);
  }

  lemma FreshMatches(s: System, i: nat, mtu: nat)
    requires Inv(s) && i !in s.interfaces
    ensures InterfaceOk(Fresh(mtu)) && JobsMatch(Fresh(mtu), i, s.jobs)
  {
    hide InterfaceOk, JobsMatch;
    forall j | j in s.jobs && !j.OtherJob? ensures j.i != i {
      assert Owned(s, j);
    }
    NoneMatch(i, s.jobs, mtu);
  }

  lemma NoneMatch(i: nat, jobs: seq<Job>, mtu: nat)
    requires forall j :: j in jobs && !j.OtherJob? ==> j.i != i
    ensures InterfaceOk(Fresh(mtu)) && JobsMatch(Fresh(mtu), i, jobs)
  {
  }

  lemma EnableCancelKeeps(s: System, i: nat)
    requires Inv(s) && Enabled(s, EnableCancel(i))
    ensures Inv(Step(s, EnableCancel(i)))
  {
    hide OthersMatch, Inv;
    InterfaceFacts(s, i);
    OthersFromInv(s, i);
    PutKeeps(s, i, s.interfaces[i].(hasCancel := true), s.jobs);
  }

  /** Freeing an interface at any time leaves no job of it behind. */
  lemma FreeKeeps(s: System, i: nat)
    requires Inv(s) && i in s.interfaces
    ensures Inv(Step(s, Free(i)))
  {
    hide InterfaceOk, JobsMatch;
    var jobs1 := UnsetJob(s.jobs, DoneJob(i));
    var jobs2 := UnsetJob(jobs1, CancelJob(i));
    SetJobOnce(s.jobs, DoneJob(i));
    SetJobOnce(jobs1, CancelJob(i));
    SetJobOnce(jobs2, OperationJob(i));
    var t := Step(s, Free(i));
    forall j | j in t.jobs ensures Owned(t, j) {
      assert Owned(s, j);
    }
    forall k | k in t.interfaces ensures InterfaceOk(t.interfaces[k]) && JobsMatch(t.interfaces[k], k, t.jobs) {
      assert JobsMatch(s.interfaces[k], k, s.jobs);
      FreeMatches(s.interfaces[k], k, s.jobs, i);
    }
  }

  lemma FreeMatches(f: Interface, k: nat, jobs: seq<Job>, i: nat)
    requires JobsMatch(f, k, jobs) && k != i
    ensures JobsMatch(f, k, FreeJobs(jobs, i))
  {
    hide CancelDue;
  }

  lemma StepKeeps(s: System, e: Event)
    requires Inv(s) && Enabled(s, e)
    ensures Inv(Step(s, e))
  {
    hide Inv;
    match e {
      case Init(i, mtu) => InitKeeps(s, i, mtu);
      case EnableCancel(i) => EnableCancelKeeps(s, i);
      case Free(i) => FreeKeeps(s, i);
      case Send(i, data) => SendKeeps(s, i, data);
      case RequestCancel(i) => CancelKeeps(s, i);
      case Done(i) => DoneKeeps(s, i);
      case Execute => ExecuteKeeps(s);
      case SetOther(n) => OtherKeeps(s, n);
      case UnsetOther(n) => OtherKeeps(s, n);
    }
  }

  // ---- runs ----

  predicate CanRun(s: System, es: seq<Event>)
    decreases |es|
  {
    es == [] || (Enabled(s, es[0]) && CanRun(Step(s, es[0]), es[1..]))
  }

  function Run(s: System, es: seq<Event>): System
    requires CanRun(s, es)
    decreases |es|
  {
    if es == [] then s else Run(Step(s, es[0]), es[1..])
  }

  /** In every run each pending job matches its interface, and every packet's history is a prefix of an allowed one. */
  lemma {:induction false} RunKeeps(s: System, es: seq<Event>)
    requires Inv(s) && CanRun(s, es)
    ensures Inv(Run(s, es))
    decreases |es|
  {
    hide Inv, Step, Enabled;
    if es != [] {
      StepKeeps(s, es[0]);
      RunKeeps(Step(s, es[0]), es[1..]);
    }
  }

  function Count(f: Interface, m: Mark): nat {
    CountIn(f.rounds, m)
  }

  function CountIn(rs: seq<Round>, m: Mark): nat {
    if rs == [] then 0 else CountIn(rs[..|rs| - 1], m) + multiset(rs[|rs| - 1].marks)[m]
  }

  lemma {:induction false} FinishedCounts(rs: seq<Round>)
    requires forall k :: 0 <= k < |rs| ==> Finished(rs[k])
    ensures CountIn(rs, Completed) == |rs| && CountIn(rs, CancelCall) <= |rs|
    decreases |rs|
  {
    if rs != [] {
      FinishedCounts(rs[..|rs| - 1]);
      FinishedMarks(rs[|rs| - 1]);
    }
  }

  lemma FinishedMarks(r: Round)
    requires Finished(r)
    ensures multiset(r.marks)[Completed] == 1 && multiset(r.marks)[CancelCall] <= 1
  {
    hide Answered;
    var b := r.marks[..|r.marks| - 1];
    AnsweredMarks(r.(marks := b));
    assert r.marks == b + [Completed];
    assert multiset(r.marks) == multiset(b) + multiset{Completed};
  }

  lemma AnsweredMarks(r: Round)
    requires Answered(r)
    ensures multiset(r.marks)[Completed] == 0 && multiset(r.marks)[CancelCall] <= 1
  {
  }

  /**
   * The sender is told exactly once per packet that is no longer under way; the receiver is asked to cancel at most
   * once per packet.
   */
  lemma OncePerSend(f: Interface)
    requires InterfaceOk(f)
    ensures Count(f, Completed) == |f.rounds| - (if f.phase.Ready? then 0 else 1)
    ensures Count(f, CancelCall) <= |f.rounds|
  {
    if f.rounds != [] {
      FinishedCounts(f.rounds[..|f.rounds| - 1]);
      if f.phase.Ready? {
        FinishedMarks(LastRound(f));
      } else {
        UnfinishedMarks(f.phase, LastRound(f));
      }
    }
  }

  /**
   * From the start, whatever interfaces are made and freed: the interfaces and their jobs match, every packet's
   * history is a prefix of an allowed one, the sender is told once of every packet that is no longer under way, and
   * the receiver is asked to cancel at most once per packet.
   */
  lemma EveryRun(es: seq<Event>, i: nat)
    requires CanRun(EMPTY, es) && i in Run(EMPTY, es).interfaces
    ensures var s := Run(EMPTY, es); var f := s.interfaces[i];
            && InterfaceOk(f) && JobsMatch(f, i, s.jobs)
            && Count(f, Completed) == |f.rounds| - (if f.phase.Ready? then 0 else 1)
            && Count(f, CancelCall) <= |f.rounds|
  {
    hide InterfaceOk, JobsMatch, Count, CanRun, Run;
    RunKeeps(EMPTY, es);
    InterfaceFacts(Run(EMPTY, es), i);
    OncePerSend(Run(EMPTY, es).interfaces[i]);
  }

  lemma UnfinishedMarks(p: Phase, r: Round)
    requires !p.Ready? && RoundOk(p, r)
    ensures multiset(r.marks)[Completed] == 0 && multiset(r.marks)[CancelCall] <= 1
  {
  }

  /**
   * Once no job is pending, no packet is stuck: every interface is ready or its receiver is at work and has heard of
   * any cancel request.
   */
  lemma NothingPending(s: System, i: nat)
    requires Inv(s) && s.jobs == [] && i in s.interfaces
    ensures s.interfaces[i].phase.Ready? || (s.interfaces[i].phase.Busy? && !CancelDue(s.interfaces[i]))
  {
    InterfaceFacts(s, i);
  }

  // ---- depth first ----

  /** The jobs a step may put on or take off the list by name. */
  ghost predicate Touches(e: Event, back: seq<Job>) {
    match e
    case Init(_, _) => false
    case EnableCancel(_) => false
    case Execute => false
    case SetOther(n) => OtherJob(n) in back
    case UnsetOther(n) => OtherJob(n) in back
    case _ => OperationJob(e.i) in back || CancelJob(e.i) in back || DoneJob(e.i) in back
  }

  /** Jobs `back`, pending at the end of the list, are left alone and never come up for execution. */
  ghost predicate StaysAbove(s: System, es: seq<Event>, back: seq<Job>)
    requires CanRun(s, es)
    decreases |es|
  {
    es != [] ==>
      && !Touches(es[0], back) && (es[0].Execute? ==> |s.jobs| > |back|)
      && StaysAbove(Step(s, es[0]), es[1..], back)
  }

  ghost predicate Suffix(jobs: seq<Job>, back: seq<Job>) {
    |back| <= |jobs| && jobs[|jobs| - |back|..] == back
  }

  lemma SuffixWithout(jobs: seq<Job>, back: seq<Job>, j: Job)
    requires Suffix(jobs, back) && j !in back
    ensures Suffix(Without(jobs, j), back) && Suffix(SetJob(jobs, j), back)
  {
    var front := jobs[..|jobs| - |back|];
    assert jobs == front + back;
    WithoutAppend(front, back, j);
    WithoutAbsent(back, j);
  }

  lemma StepSuffix(s: System, e: Event, back: seq<Job>)
    requires Enabled(s, e) && Suffix(s.jobs, back) && !Touches(e, back) && (e.Execute? ==> |s.jobs| > |back|)
    ensures Suffix(Step(s, e).jobs, back)
  {
    hide Suffix;
    match e {
      case Init(_, _) =>
      case EnableCancel(_) =>
      case Free(i) =>
        var jobs1 := UnsetJob(s.jobs, DoneJob(i));
        SuffixWithout(s.jobs, back, DoneJob(i));
        SuffixWithout(jobs1, back, CancelJob(i));
        SuffixWithout(UnsetJob(jobs1, CancelJob(i)), back, OperationJob(i));
      case Send(i, data) => SuffixWithout(s.jobs, back, OperationJob(i));
      case RequestCancel(i) =>
        SuffixWithout(s.jobs, back, OperationJob(i));
        SuffixWithout(UnsetJob(s.jobs, OperationJob(i)), back, DoneJob(i));
        SuffixWithout(s.jobs, back, CancelJob(i));
      case Done(i) =>
        SuffixWithout(s.jobs, back, CancelJob(i));
        SuffixWithout(UnsetJob(s.jobs, CancelJob(i)), back, DoneJob(i));
      case Execute => SuffixTail(s.jobs, back);
      case SetOther(n) => SuffixWithout(s.jobs, back, OtherJob(n));
      case UnsetOther(n) => SuffixWithout(s.jobs, back, OtherJob(n));
    }
  }

  lemma SuffixTail(jobs: seq<Job>, back: seq<Job>)
    requires Suffix(jobs, back) && |jobs| > |back|
    ensures Suffix(jobs[1..], back)
  {
  }

  /**
   * Whatever a job brings about runs before the jobs that were already waiting: as long as newer jobs keep coming, the
   * older ones stay at the end of the list, in their order.
   */
  lemma {:induction false} OlderJobsWait(s: System, es: seq<Event>, back: seq<Job>)
    requires CanRun(s, es) && StaysAbove(s, es, back) && Suffix(s.jobs, back)
    ensures Suffix(Run(s, es).jobs, back)
    decreases |es|
  {
    hide Suffix, Step, Enabled, Touches;
    if es != [] {
      StepSuffix(s, es[0], back);
      OlderJobsWait(Step(s, es[0]), es[1..], back);
    }
  }
}
