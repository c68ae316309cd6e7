/** The job list of base/BPending.c and the interface of flow/PacketPassInterface.h as the objects the calls change. */
module PacketPassObject {
  import opened Common
  import opened PacketPass

  class BPendingGroup {
    var jobs: seq<Job>

    constructor ()
      ensures jobs == []
    {
      jobs := [];
    }

    /** Puts a job at the front of the list, wherever it was. */
    method Set(j: Job)
      requires NoDup(jobs)
      modifies this
      ensures jobs == SetJob(old(jobs), j) && NoDup(jobs)
    {
      SetJobOnce(jobs, j);
      if j in jobs {
        jobs := Without(jobs, j);
      } else {
        WithoutAbsent(jobs, j);
      }
      jobs := [j] + jobs;
    }

    method Unset(j: Job)
      requires NoDup(jobs)
      modifies this
      ensures jobs == UnsetJob(old(jobs), j) && NoDup(jobs)
    {
      SetJobOnce(jobs, j);
      if j in jobs {
        jobs := Without(jobs, j);
      } else {
        WithoutAbsent(jobs, j);
      }
    }

    /** Takes the first job off the list; the caller then runs its handler. */
    method TakeJob() returns (j: Job)
      requires jobs != [] && NoDup(jobs)
      modifies this
      ensures j == old(jobs)[0] && jobs == old(jobs)[1..] && NoDup(jobs) && j !in jobs
    {
      j := jobs[0];
      jobs := jobs[1..];
    }
  }

  class PacketPassInterface {
    const id: nat
    const pg: BPendingGroup
    const mtu: nat
    var hasCancel: bool
    var data: seq<Byte>
    var state: Phase
    var cancelRequested: bool
    ghost var rounds: seq<Round>

    ghost function View(): Interface
      reads this
    {
      Interface(state, cancelRequested, hasCancel, mtu, data, rounds)
    }

    /** What one interface needs of the system to work. */
    ghost predicate Valid()
      reads this, pg
    {
      NoDup(pg.jobs) && InterfaceOk(View()) && JobsMatch(View(), id, pg.jobs)
    }

    constructor (id: nat, pg: BPendingGroup, mtu: nat)
      requires NoDup(pg.jobs) && forall j :: j in pg.jobs && !j.OtherJob? ==> j.i != id
      ensures Valid() && this.id == id && this.pg == pg && this.mtu == mtu && rounds == [] && !hasCancel
    {
      this.id, this.pg, this.mtu := id, pg, mtu;
      hasCancel, data, state, cancelRequested, rounds := false, [], Ready, false, [];
    }

    /** Whatever the state, no job of the interface is left on the list. */
    method Free()
      requires Valid()
      modifies pg
      ensures pg.jobs == FreeJobs(old(pg.jobs), id) && NoDup(pg.jobs)
      ensures forall j :: j in pg.jobs && !j.OtherJob? ==> j.i != id
    {
      hide InterfaceOk, JobsMatch;
      pg.Unset(DoneJob(id));
      pg.Unset(CancelJob(id));
      pg.Unset(OperationJob(id));
    }

    method EnableCancel()
      requires Valid() && !hasCancel && rounds == []
      modifies this`hasCancel
      ensures Valid() && hasCancel
    {
      hasCancel := true;
    }

    method SenderSend(packet: seq<Byte>)
      requires Valid() && state.Ready? && |packet| <= mtu
      modifies this, pg
      ensures View() == SendTo(old(View()), packet) && pg.jobs == SetJob(old(pg.jobs), OperationJob(id))
      ensures Valid()
    {
      hide InterfaceOk, SetJob;
      SendToOk(View(), packet);
      SendMatches(View(), id, pg.jobs, packet);
      data := packet;
      pg.Set(OperationJob(id));
      state := OperationPending;
      cancelRequested := false;
      rounds := rounds + [Round(packet, false, [])];
    }

    method SenderRequestCancel()
      requires Valid() && !state.Ready? && hasCancel
      modifies this, pg
      ensures View() == AskCancel(old(View())) && pg.jobs == CancelJobs(old(pg.jobs), old(View()), id)
      ensures Valid()
    {
      hide InterfaceOk, SetJob, UnsetJob;
      AskCancelOk(View());
      CancelMatches(View(), id, pg.jobs);
      UnderWay(View());
      if cancelRequested {
        return;
      }
      cancelRequested := true;
      rounds := rounds[|rounds| - 1 := rounds[|rounds| - 1].(asked := true)];
      if state.OperationPending? {
        pg.Unset(OperationJob(id));
        pg.Set(DoneJob(id));
        state := DonePending;
      } else if state.Busy? {
        pg.Set(CancelJob(id));
      }
    }

    method Done()
      requires Valid() && state.Busy?
      modifies this, pg
      ensures View() == ReceiverIsDone(old(View())) && pg.jobs == DoneJobs(old(pg.jobs), id)
      ensures Valid()
    {
      hide InterfaceOk, SetJob, UnsetJob;
      ReceiverIsDoneOk(View());
      DoneMatches(View(), id, pg.jobs);
      UnderWay(View());
      pg.Unset(CancelJob(id));
      pg.Set(DoneJob(id));
      state := DonePending;
      rounds := rounds[|rounds| - 1 := rounds[|rounds| - 1].(marks := rounds[|rounds| - 1].marks + [ReceiverDone])];
    }

    /** The three job handlers, once the job is off the list; each ends by calling the receiver or the sender. */
    method JobOperation() returns (packet: seq<Byte>)
      requires NoDup(pg.jobs) && InterfaceOk(View()) && JobsMatch(View(), id, [OperationJob(id)] + pg.jobs)
      requires OperationJob(id) !in pg.jobs
      modifies this
      ensures View() == RunOperation(old(View())) && Valid()
      ensures rounds != [] && packet == rounds[|rounds| - 1].data
    {
      assert state.OperationPending?;
      RunOperationOk(View());
      state := Busy;
      rounds := rounds[|rounds| - 1 := rounds[|rounds| - 1].(marks := rounds[|rounds| - 1].marks + [Operation(data)])];
      packet := data;
    }

    method JobRequestCancel()
      requires NoDup(pg.jobs) && InterfaceOk(View()) && JobsMatch(View(), id, [CancelJob(id)] + pg.jobs)
      requires CancelJob(id) !in pg.jobs
      modifies this
      ensures View() == RunCancel(old(View())) && Valid()
    {
      assert state.Busy? && cancelRequested && hasCancel;
      RunCancelOk(View());
      rounds := rounds[|rounds| - 1 := rounds[|rounds| - 1].(marks := rounds[|rounds| - 1].marks + [CancelCall])];
    }

    method JobDone()
      requires NoDup(pg.jobs) && InterfaceOk(View()) && JobsMatch(View(), id, [DoneJob(id)] + pg.jobs)
      requires DoneJob(id) !in pg.jobs
      modifies this
      ensures View() == RunDone(old(View())) && Valid()
    {
      assert state.DonePending?;
      RunDoneOk(View());
      state := Ready;
      UnderWay(View().(phase := DonePending));
      rounds := rounds[|rounds| - 1 := rounds[|rounds| - 1].(marks := rounds[|rounds| - 1].marks + [Completed])];
    }
  }

  lemma UnderWay(f: Interface)
    requires InterfaceOk(f) && !f.phase.Ready?
    ensures f.rounds != []
  {
  }

  lemma SendMatches(f: Interface, i: nat, jobs: seq<Job>, packet: seq<Byte>)
    requires f.phase.Ready? && JobsMatch(f, i, jobs)
    ensures JobsMatch(SendTo(f, packet), i, SetJob(jobs, OperationJob(i)))
  {
  }

  lemma DoneMatches(f: Interface, i: nat, jobs: seq<Job>)
    requires InterfaceOk(f) && f.phase.Busy? && JobsMatch(f, i, jobs)
    ensures JobsMatch(ReceiverIsDone(f), i, DoneJobs(jobs, i))
  {
    hide InterfaceOk;
    ReceiverIsDoneOk(f);
  }
}
