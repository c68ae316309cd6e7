/** The relay bookkeeping of client/client.c as the client's own state: its peers and its two lists. */
module RelayTable {
  import opened Common
  import opened Relays
  import opened RelayRuns

  class Client {
    var peers: map<nat, Peer>
    var relays: seq<nat>
    var waitingRelayPeers: seq<nat>

    function View(): State
      reads this
    {
      State(peers, relays, waitingRelayPeers)
    }

    constructor ()
      ensures View() == State(map[], [], []) && Inv(View()) && Settled(View())
    {
      peers, relays, waitingRelayPeers := map[], [], [];
    }

    method RegisterNeedRelay(p: nat)
      requires p in peers && Unreached(peers[p]) && !peers[p].isRelay
      modifies this
      ensures View() == RegisterNeed(old(View()), p)
    {
      waitingRelayPeers := waitingRelayPeers + [p];
      peers := peers[p := peers[p].(waiting := true)];
    }

    method UnregisterNeedRelay(p: nat)
      requires p in peers && peers[p].waiting && !peers[p].haveLink && peers[p].via.None? && !peers[p].isRelay
      modifies this
      ensures View() == UnregisterNeed(old(View()), p)
    {
      waitingRelayPeers := Without(waitingRelayPeers, p);
      peers := peers[p := peers[p].(waiting := false)];
    }

    method InstallRelaying(p: nat, relay: nat)
      requires p in peers && relay in peers && Unreached(peers[p]) && !peers[p].isRelay
      requires peers[relay].isRelay && peers[relay].haveLink
      modifies this
      ensures View() == Install(old(View()), p, relay)
    {
      peers := peers[relay := peers[relay].(users := peers[relay].users + [p])];
      peers := peers[p := peers[p].(via := Some(relay), flow := Some(relay))];
    }

    method DoFreeRelaying(p: nat)
      requires Inv(View()) && p in peers && peers[p].via.Some?
      modifies this
      ensures View() == FreeRelaying(old(View()), p)
    {
      RelayedThroughLinked(View(), p);
      var relay := peers[p].via.value;
      peers := peers[relay := peers[relay].(users := Without(peers[relay].users, p))];
      peers := peers[p := peers[p].(via := None, flow := None)];
    }

    method DoInitLink(p: nat)
      requires p in peers && Unreached(peers[p]) && !peers[p].isRelay
      modifies this
      ensures View() == InitLink(old(View()), p)
    {
      peers := peers[p := peers[p].(haveLink := true, flow := Some(p))];
    }

    /** Frees the sink; by then nobody else's packets go through it. */
    method DoFreeLink(p: nat)
      requires Inv(View()) && p in peers && peers[p].haveLink && !peers[p].isRelay
      modifies this
      ensures View() == FreeLink(old(View()), p)
      ensures forall q :: q in peers ==> peers[q].flow != Some(p)
    {
      FreeLinkKeeps(View(), p);
      ghost var s := View();
      peers := peers[p := peers[p].(haveLink := false, flow := None)];
      forall q | q in peers
        ensures peers[q].flow != Some(p)
      {
        assert q != p ==> Of(s, q) == peers[q];
      }
    }

    method AssignRelays()
      requires Inv(View())
      modifies this
      ensures View() == Assign(old(View()))
    {
      hide Inv;
      while waitingRelayPeers != []
        invariant Inv(View()) && Assign(View()) == Assign(old(View()))
        decreases |waitingRelayPeers|
      {
        var p := waitingRelayPeers[0];
        if relays == [] {
          return;
        }
        var relay := relays[0];
        assert relay in relays;
        AssignOneKeeps(View());
        RelayKnown(View(), relay);
        AskerKnown(View(), p);
        UnregisterNeedRelay(p);
        InstallRelaying(p, relay);
      }
    }

    method EnableRelayProvider(p: nat)
      requires Inv(View()) && p in peers && peers[p].haveLink && !peers[p].isRelay
      modifies this
      ensures View() == EnableProvider(old(View()), p)
    {
      hide Inv, Assign;
      AddRelayKeeps(View(), p);
      relays := relays + [p];
      peers := peers[p := peers[p].(users := [])];
      peers := peers[p := peers[p].(isRelay := true)];
      assert View() == AddRelay(old(View()), p);
      AssignRelays();
    }

    method DisableRelayProvider(p: nat)
      requires Inv(View()) && p in peers && peers[p].isRelay
      modifies this
      ensures View() == DisableProvider(old(View()), p)
    {
      hide Inv, Assign;
      while peers[p].users != []
        invariant Inv(View()) && p in peers && Disconnect(View(), p) == Disconnect(old(View()), p)
        invariant peers[p].isRelay
        decreases |peers[p].users|
      {
        DisconnectOneKeeps(View(), p);
        var user := peers[p].users[0];
        FreeRelayingKeeps(View(), user);
        FreedKnown(View(), user);
        DoFreeRelaying(user);
        RegisterNeedRelay(user);
        assert View().peers[p] == Of(View(), p);
      }
      DropRelayKeeps(View(), p);
      relays := Without(relays, p);
      peers := peers[p := peers[p].(isRelay := false)];
      assert View() == DropRelay(Disconnect(old(View()), p), p);
      AssignRelays();
    }

    method DoNeedRelay(p: nat)
      requires Inv(View()) && p in peers && !peers[p].isRelay
      modifies this
      ensures View() == NeedRelay(old(View()), p)
    {
      hide Inv, Assign, FreeRelaying;
      if peers[p].waiting {
        return;
      }
      Released(View(), p);
      if peers[p].haveLink {
        DoFreeLink(p);
      } else if peers[p].via.Some? {
        FreeRelayingKeeps(View(), p);
        FreedKnown(View(), p);
        DoFreeRelaying(p);
      }
      assert View() == Release(old(View()), p);
      RegisterNeedKeeps(View(), p);
      UnreachedPlain(View(), p);
      RegisterNeedRelay(p);
      AssignRelays();
    }

    /** Whatever reached the peer is taken down; the four flags are clear at the end. */
    method CleanupConnections(p: nat)
      requires Inv(View()) && p in peers
      modifies this
      ensures View() == Cleanup(old(View()), p)
      ensures Inv(View()) && p in peers && Unreached(peers[p]) && !peers[p].isRelay
    {
      hide Inv, DisableProvider, FreeRelaying;
      CleanedUp(View(), p);
      if peers[p].haveLink {
        if peers[p].isRelay {
          DisableRelayProvider(p);
          assert p in peers;
        }
        DoFreeLink(p);
      } else if peers[p].via.Some? {
        DoFreeRelaying(p);
      } else if peers[p].waiting {
        UnregisterNeedRelay(p);
      }
    }

    // ---- the events ----

    method PeerAdd(p: nat)
      requires Inv(View()) && p !in peers
      modifies this
      ensures View() == Step(old(View()), Arrive(p))
    {
      peers := peers[p := NEW_PEER];
    }

    method PeerRemove(p: nat)
      requires Inv(View()) && p in peers
      modifies this
      ensures View() == Step(old(View()), Leave(p))
    {
      hide Inv, Cleanup;
      CleanupConnections(p);
      peers := peers - {p};
    }

    method PeerReset(p: nat)
      requires Inv(View()) && p in peers
      modifies this
      ensures View() == Step(old(View()), Reset(p))
    {
      hide Inv, Cleanup;
      CleanupConnections(p);
    }

    /** Connecting to a peer or binding for it; `ok` says whether setting up the link works out. */
    method GetFreshLink(p: nat, ok: bool)
      requires Inv(View()) && p in peers
      modifies this
      ensures View() == Step(old(View()), Connect(p, ok))
    {
      hide Inv, Cleanup, InitLink;
      CleanupConnections(p);
      if ok {
        DoInitLink(p);
      } else {
        PeerReset(p);
      }
    }

    method DataProtoHandler(p: nat, up: bool, server: bool)
      requires Inv(View()) && p in peers && peers[p].haveLink
      modifies this
      ensures View() == Step(old(View()), if up then Up(p, server) else Down(p))
    {
      hide Inv, EnableProvider, DisableProvider;
      if up {
        if server && !peers[p].isRelay {
          EnableRelayProvider(p);
        }
      } else if peers[p].isRelay {
        DisableRelayProvider(p);
      }
    }

    /** Neither side can bind. */
    method CannotBind(p: nat)
      requires Inv(View()) && p in peers
      modifies this
      ensures View() == Step(old(View()), Need(p))
    {
      hide Inv, NeedRelay;
      if !peers[p].isRelay {
        DoNeedRelay(p);
      }
    }
  }

  lemma RelayKnown(s: State, r: nat)
    requires Inv(s) && r in s.relays
    ensures r in s.peers && s.peers[r].isRelay && s.peers[r].haveLink
  {
    assert PeerOk(r, Of(s, r));
  }

  lemma AskerKnown(s: State, p: nat)
    requires Inv(s) && p in s.waiting
    ensures p in s.peers && s.peers[p].waiting && !s.peers[p].haveLink && s.peers[p].via.None? && !s.peers[p].isRelay
  {
    assert PeerOk(p, Of(s, p));
  }

  lemma FreedKnown(s: State, p: nat)
    requires Inv(s) && Of(s, p).via.Some?
    ensures var t := FreeRelaying(s, p); p in s.peers && s.peers.Keys == t.peers.Keys
  {
    RelayedThroughLinked(s, p);
  }

  lemma UnreachedPlain(s: State, p: nat)
    requires Inv(s) && Unreached(Of(s, p))
    ensures !Of(s, p).isRelay
  {
    assert PeerOk(p, Of(s, p));
  }

  /** The branches of the clean-up, as seen from its start. */
  lemma CleanedUp(s: State, p: nat)
    requires Inv(s) && p in s.peers
    ensures Inv(Cleanup(s, p)) && p in Cleanup(s, p).peers && Unreached(Of(Cleanup(s, p), p))
    ensures !Of(Cleanup(s, p), p).isRelay
    ensures Of(s, p).isRelay ==> Of(s, p).haveLink
    ensures Of(s, p).isRelay ==>
      (var t := DisableProvider(s, p);
       Inv(t) && p in t.peers && t.peers[p].haveLink && !t.peers[p].isRelay && !t.peers[p].waiting)
    ensures Of(s, p).haveLink ==> Of(s, p).via.None? && !Of(s, p).waiting
    ensures Of(s, p).via.Some? ==> !Of(s, p).waiting
  {
    hide Cleanup, DisableProvider;
    CleanupKeeps(s, p);
    CleanupRoles(s, p);
    assert PeerOk(p, Of(s, p));
    if Of(s, p).isRelay {
      DisableRoles(s, p);
      DisableInv(s, p);
    }
  }
}
