// The mutable objects behind the network model: the network's maps, each operation of which runs
// under one lock, and the persister.
module NetworkObjects {
  import opened Network

  // The servers map as the model sees it: a nil entry is an absent one.
  function Present(servers: map<Name, Option<Inst>>): Servers
  {
    map n | n in servers && servers[n].Some? :: servers[n].value
  }

  class NetworkMaps {
    var enabled: map<End, bool>
    var connections: map<End, Name>
    var servers: map<Name, Option<Inst>>

    ghost function EndsView(): Ends
      reads this
    {
      Ends(enabled, connections)
    }

    constructor ()
      ensures EndsView() == Ends(map[], map[]) && Present(servers) == map[]
    {
      enabled, connections, servers := map[], map[], map[];
    }

    // The target a request is delivered to, if its end is enabled, connected and its server is up.
    method ReadEndnameInfo(e: End) returns (on: bool, name: Option<Name>, server: Option<Inst>)
      ensures on && name.Some? && server.Some? <==> ReadEnd(EndsView(), Present(servers), e).Some?
      ensures on && name.Some? && server.Some? ==>
                ReadEnd(EndsView(), Present(servers), e) == Some((name.value, server.value))
      ensures on <==> e in enabled && enabled[e]
      ensures name == if e in connections then Some(connections[e]) else None
      ensures server == if name.Some? && name.value in servers then servers[name.value] else None
    {
      on := e in enabled && enabled[e];
      name := if e in connections then Some(connections[e]) else None;
      server := None;
      if name.Some? && name.value in servers {
        server := servers[name.value];
      }
    }

    method IsServerDead(e: End, name: Name, server: Inst) returns (dead: bool)
      ensures dead <==> ServerDead(EndsView(), Present(servers), e, name, server)
      ensures dead <==> !(e in enabled && enabled[e]) || name !in servers || servers[name] != Some(server)
    {
      return !(e in enabled && enabled[e]) || !(name in servers && servers[name] == Some(server));
    }

    method AddServer(name: Name, server: Inst)
      modifies this
      ensures Present(servers) == old(Present(servers))[name := server] && EndsView() == old(EndsView())
    {
      servers := servers[name := Some(server)];
    }

    // The entry stays, with a nil server.
    method DeleteServer(name: Name)
      modifies this
      ensures Present(servers) == old(Present(servers)) - {name} && EndsView() == old(EndsView())
    {
      servers := servers[name := None];
    }

    method Enable(e: End, on: bool)
      modifies this
      ensures EndsView() == Ends(old(enabled)[e := on], old(connections)) && servers == old(servers)
    {
      enabled := enabled[e := on];
    }

    method Connect(e: End, name: Name)
      modifies this
      ensures EndsView() == Ends(old(enabled), old(connections)[e := name]) && servers == old(servers)
    {
      connections := connections[e := name];
    }
  }

  class PersisterObject {
    var raftstate: seq<int>
    var snapshot: seq<int>

    ghost function View(): Content
      reads this
    {
      Content(raftstate, snapshot)
    }

    constructor ()
      ensures View() == EMPTY && raftstate == snapshot == []
    {
      raftstate, snapshot := [], [];
    }

    // Both parts are replaced in one atomic action.
    method Save(raftstate: seq<int>, snapshot: seq<int>)
      modifies this
      ensures View() == Content(raftstate, snapshot)
      ensures this.raftstate == raftstate && this.snapshot == snapshot
    {
      this.raftstate, this.snapshot := raftstate, snapshot;
    }

    // A new object: a save to either one leaves the other alone.
    method Copy() returns (np: PersisterObject)
      ensures fresh(np) && np.View() == View()
      ensures np.raftstate == raftstate && np.snapshot == snapshot
    {
      np := new PersisterObject();
      np.raftstate, np.snapshot := raftstate, snapshot;
    }
  }
}
