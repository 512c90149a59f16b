/** A server that knows all other members does what the group's steps say. */
module ElectionMembers {
  import opened Uuids
  import opened ElectionServer
  import opened ElectionGroup

  /** The server is the member that acts, and its connected replicas are the other members. */
  ghost predicate Acts(server: DripboxServer, g: Group, e: Event)
    reads server, server.scheduler
  {
    && server.Valid() && Enabled(g, e) && Actor(g, e) == server.uuid
    && server.Value() == g.servers[server.uuid]
    && Connected(server.replicas) == Others(g.ids, server.uuid)
  }

  /** One event at a server: a message is handled (ELECTION by starting an election), the election coroutine
      runs a slice, an election is started, or a replica is announced at an address that is known. */
  method Perform(server: DripboxServer, ghost g: Group, e: Event, message: Msg, address: nat) returns (written: seq<Msg>)
    requires Acts(server, g, e)
    requires e.Deliver? ==> message == g.flight[e.i]
    requires e.Introduce? ==> HasAddress(server.replicas, address)
    modifies server, server.scheduler, server.scheduler.data
    ensures server.Valid() && server.Value() == Changed(g, e) && written == Written(g, e)
    ensures Connected(server.replicas) == Others(g.ids, server.uuid)
  {
    written := [];
    var sent: seq<Uuid> := [];
    match e {
      case Deliver(_, now) =>
        if message.Election? {
          sent := server.StartElection(now);
        } else {
          sent := server.HandleCoordinator(message.from, now);
        }
        written := ElectionMsgs(sent);
      case Resume(_, now) =>
        sent := server.ElectionSlice(now);
        written := CoordinatorMsgs(server.uuid, sent);
      case Trigger(_, now) =>
        sent := server.StartElection(now);
        written := ElectionMsgs(sent);
      case Introduce(_, u) =>
        server.HandleAddReplica(address, u);
    }
  }
}
