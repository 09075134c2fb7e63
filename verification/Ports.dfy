/** The ports manager, and the clients and the client list of the server that use it. */
module Ports {
  import opened PortRuns
  import opened Wrappers

  /** utils.GetFreePort: the operating system grants a port or not. */
  method GetFreePort(lbound: int, ubound: int) returns (r: Result<int, string>)
    requires lbound <= ubound
    ensures r.Ok? ==> 0 < r.value < 0x1_0000 && (lbound <= r.value <= ubound || lbound <= 0 <= ubound)
  {
    var target :| lbound <= target <= ubound;
    if target < 0 || target >= 0x1_0000 {
      return Err("invalid port");
    }
    if * {
      return Err("address already in use");
    }
    if target != 0 {
      return Ok(target);
    }
    var port :| 0 < port < 0x1_0000;
    return Ok(port);
  }

  class PortsManager {
    var portsInUse: map<int, bool>
    var allowedPorts: map<int, bool>

    constructor ()
      ensures portsInUse == map[] && allowedPorts == map[]
    {
      portsInUse, allowedPorts := map[], map[];
    }

    method AddAllowedPort(port: int)
      modifies this`allowedPorts
      ensures allowedPorts == old(allowedPorts)[port := true]
    {
      allowedPorts := allowedPorts[port := true];
    }

    /** Any free one of the allowed ports, or 0 when all ports are allowed. */
    method GetAllowedAndFreePort() returns (r: Result<int, string>)
      ensures allowedPorts == map[] ==> r == Ok(0)
      ensures allowedPorts != map[] && r.Ok? ==> r.value in allowedPorts && r.value !in portsInUse
      ensures allowedPorts != map[] && allowedPorts.Keys <= portsInUse.Keys ==> r.Err?
    {
      if |allowedPorts| == 0 {
        return Ok(0);
      }
      var left := allowedPorts.Keys;
      while left != {}
        invariant left <= allowedPorts.Keys
        decreases |left|
      {
        assert exists p :: p in left by {
          assert (forall p :: p !in left) ==> left == {};
        }
        var port :| port in left;
        left := left - {port};
        if port !in portsInUse {
          var probed := GetFreePort(port, port);
          if probed.Ok? {
            return Ok(port);
          }
        }
      }
      return Err("All allowed ports are unavailable");
    }

    /** Hands out a free port that no one has reserved, or fails and reserves none. */
    method ReservePort() returns (r: Result<int, string>)
      modifies this`portsInUse
      ensures r.Ok? ==> MayReserve(old(portsInUse).Keys, allowedPorts.Keys, r.value)
      ensures portsInUse == if r.Ok? then old(portsInUse)[r.value := true] else old(portsInUse)
      ensures allowedPorts != map[] && allowedPorts.Keys <= old(portsInUse).Keys ==> r.Err?
    {
      for i := 0 to 10000
        invariant portsInUse == old(portsInUse)
      {
        var allowedAndFree := GetAllowedAndFreePort();
        if allowedAndFree.Err? {
          return Err(allowedAndFree.error);
        }
        var free := GetFreePort(allowedAndFree.value, allowedAndFree.value);
        if free.Err? {
          return Err(free.error);
        }
        if free.value !in portsInUse {
          portsInUse := portsInUse[free.value := true];
          return Ok(free.value);
        }
      }
      return Err("Unable To Reserve A Free Port");
    }

    method ReleasePort(port: int) returns (ok: bool)
      modifies this`portsInUse
      ensures ok <==> port in old(portsInUse)
      ensures portsInUse == old(portsInUse) - {port}
    {
      if port in portsInUse {
        portsInUse := portsInUse - {port};
        return true;
      }
      return false;
    }
  }

  class Client {
    const id: string
    const manager: PortsManager
    var open: bool
    var tunnels: seq<Tunnel>

    /** A client whose session is open. */
    constructor (id: string, manager: PortsManager)
      ensures this.id == id && this.manager == manager && open && tunnels == []
    {
      this.id, this.manager, open, tunnels := id, manager, true, [];
    }

    /**
     A call that no other interrupts. It may fail at the reservation or at either message to the
     client, and always fails at a message once the session is closed.
     */
    method CreateTunnel(clientPort: int, gostPort: int) returns (r: Result<Tunnel, string>)
      modifies this`tunnels, manager`portsInUse
      ensures Tunnelled(old(tunnels), clientPort) ==> r == Ok(old(tunnels)[FindTunnel(old(tunnels), clientPort)])
      ensures !open && !Tunnelled(old(tunnels), clientPort) ==> r.Err?
      ensures r.Err? || Tunnelled(old(tunnels), clientPort) ==>
                tunnels == old(tunnels) && manager.portsInUse == old(manager.portsInUse)
      ensures r.Ok? && !Tunnelled(old(tunnels), clientPort) ==>
                && tunnels == old(tunnels) + [r.value]
                && r.value == Tunnel(clientPort, r.value.serverPort, gostPort)
                && MayReserve(old(manager.portsInUse).Keys, manager.allowedPorts.Keys, r.value.serverPort)
                && manager.portsInUse == old(manager.portsInUse)[r.value.serverPort := true]
    {
      for i := 0 to |tunnels|
        invariant forall j :: 0 <= j < i ==> tunnels[j].clientPort != clientPort
        invariant tunnels == old(tunnels) && manager.portsInUse == old(manager.portsInUse)
      {
        if tunnels[i].clientPort == clientPort {
          return Ok(tunnels[i]);
        }
      }
      var reserved := manager.ReservePort();
      if reserved.Err? {
        return Err(reserved.error);
      }
      var tunnel := Tunnel(clientPort, reserved.value, gostPort);
      var sent := *;
      if !open || !sent {
        var _ := manager.ReleasePort(tunnel.serverPort);
        return Err("Failed To Instruct Client To Do Port Forwarding");
      }
      if * {
        var _ := manager.ReleasePort(tunnel.serverPort);
        return Err("Client Failed To Create Tunnel");
      }
      tunnels := tunnels + [tunnel];
      return Ok(tunnel);
    }

    /** Closes the session, and then releases the ports of all tunnels. */
    method Stop()
      modifies this`open, this`tunnels, manager`portsInUse
      ensures !open && tunnels == []
      ensures manager.portsInUse == old(manager.portsInUse) - ServerPorts(old(tunnels))
    {
      open := false;
      for i := 0 to |tunnels|
        invariant tunnels == old(tunnels) && !open
        invariant manager.portsInUse == old(manager.portsInUse) - ServerPorts(tunnels[..i])
      {
        var _ := manager.ReleasePort(tunnels[i].serverPort);
        MorePorts(tunnels, i);
      }
      assert tunnels[..|tunnels|] == tunnels;
      tunnels := [];
    }
  }

  lemma MorePorts(tunnels: seq<Tunnel>, i: nat)
    requires i < |tunnels|
    ensures ServerPorts(tunnels[..i + 1]) == ServerPorts(tunnels[..i]) + {tunnels[i].serverPort}
  {
    forall p | p in ServerPorts(tunnels[..i + 1])
      ensures p in ServerPorts(tunnels[..i]) + {tunnels[i].serverPort}
    {
      var k :| 0 <= k < i + 1 && tunnels[..i + 1][k].serverPort == p;
      assert k < i ==> tunnels[..i][k].serverPort == p;
    }
    forall p | p in ServerPorts(tunnels[..i])
      ensures p in ServerPorts(tunnels[..i + 1])
    {
      var k :| 0 <= k < i && tunnels[..i][k].serverPort == p;
      assert tunnels[..i + 1][k].serverPort == p;
    }
    assert tunnels[..i + 1][i] == tunnels[i];
  }

  /** The place of the client with an identifier, or |clients|. */
  ghost function FindClient(clients: seq<Client>, id: string): (i: nat)
    ensures i <= |clients| && (i < |clients| ==> clients[i].id == id)
    ensures forall j :: 0 <= j < i ==> clients[j].id != id
  {
    if clients == [] || clients[0].id == id then 0 else 1 + FindClient(clients[1..], id)
  }

  ghost predicate DistinctIds(clients: seq<Client>)
  {
    forall i, j :: 0 <= i < j < |clients| ==> clients[i].id != clients[j].id
  }

  /** A larger array with the same clients in front. */
  method Grown(clients: array<Client>, fill: Client) returns (longer: array<Client>)
    ensures fresh(longer) && longer.Length > clients.Length && longer[..clients.Length] == clients[..]
  {
    longer := new Client[2 * clients.Length + 1](_ => fill);
    forall i | 0 <= i < clients.Length {
      longer[i] := clients[i];
    }
  }

  /**
   The reservations of Server.Start: a port for each of the n tunnel services. When one fails the
   server does not start, and those before it are kept.
   */
  method StartServices(manager: PortsManager, n: nat) returns (ports: seq<int>, ok: bool)
    modifies manager`portsInUse
    ensures ok <==> |ports| == n
    ensures |ports| <= n && forall i, j :: 0 <= i < j < |ports| ==> ports[i] != ports[j]
    ensures forall p :: p in ports ==> MayReserve(old(manager.portsInUse).Keys, manager.allowedPorts.Keys, p)
    ensures manager.portsInUse.Keys == old(manager.portsInUse).Keys + set p | p in ports
  {
    ports := [];
    for i := 0 to n
      invariant |ports| == i && forall j, k :: 0 <= j < k < i ==> ports[j] != ports[k]
      invariant forall p :: p in ports ==> MayReserve(old(manager.portsInUse).Keys, manager.allowedPorts.Keys, p)
      invariant manager.portsInUse.Keys == old(manager.portsInUse).Keys + set p | p in ports
    {
      var reserved := manager.ReservePort();
      if reserved.Err? {
        return ports, false;
      }
      ports := ports + [reserved.value];
    }
    ok := true;
  }

  /** The list of clients: a slice of its first count places. */
  class ClientList {
    var clients: array<Client>
    var count: nat
    const manager: PortsManager

    constructor (manager: PortsManager)
      ensures this.manager == manager && Valid() && Contents() == [] && fresh(clients)
    {
      this.manager := manager;
      clients, count := new Client[0], 0;
    }

    ghost predicate Valid()
      reads this, clients
    {
      && count <= clients.Length && DistinctIds(clients[..count])
      && forall i :: 0 <= i < count ==> clients[i].manager == manager
    }

    ghost function Contents(): seq<Client>
      reads this, clients
      requires count <= clients.Length
    {
      clients[..count]
    }

    /** append writes in place while there is room, and moves to a larger array otherwise. */
    method AddClient(client: Client)
      requires Valid() && client.manager == manager && FindClient(Contents(), client.id) == |Contents()|
      modifies this, clients
      ensures Valid() && Contents() == old(Contents()) + [client]
      ensures clients == old(clients) || fresh(clients)
    {
      if count == clients.Length {
        clients := Grown(clients, client);
      }
      clients[count] := client;
      count := count + 1;
    }

    /**
     Stops the client and takes it out, shifting the others down while the loop still runs over
     the old length: it skips one place and reads the last client again.
     */
    method RemoveClient(id: string) returns (result: Client?)
      requires Valid()
      modifies this`count, clients, manager`portsInUse, Contents()
      ensures Valid()
      ensures var f := FindClient(old(Contents()), id);
              if f == old(count) then
                result == null && Contents() == old(Contents()) && manager.portsInUse == old(manager.portsInUse)
              else
                && result == old(Contents())[f]
                && Contents() == old(Contents())[..f] + old(Contents())[f + 1..]
                && result.tunnels == [] && !result.open
                && manager.portsInUse == old(manager.portsInUse) - ServerPorts(old(Contents()[f].tunnels))
      ensures forall c :: c in old(Contents()) && c != result ==> c.tunnels == old(c.tunnels) && c.open == old(c.open)
    {
      ghost var f := FindClient(Contents(), id);
      ghost var before := Contents();
      result := null;
      var n := count;
      for i := 0 to n
        invariant Valid()
        invariant result == null <==> i <= f
        invariant result == null ==> count == old(count) && clients[..count] == before
        invariant result == null ==> manager.portsInUse == old(manager.portsInUse)
        invariant result == null ==> forall c :: c in before ==> c.tunnels == old(c.tunnels) && c.open == old(c.open)
        invariant result != null ==> Removed(before, f, clients[..old(count)]) && count == old(count) - 1
        invariant result != null ==> Contents() == before[..f] + before[f + 1..]
        invariant result != null ==> result == before[f] && result.tunnels == [] && !result.open
        invariant result != null ==> manager.portsInUse == old(manager.portsInUse) - ServerPorts(old(before[f].tunnels))
        invariant forall c :: c in before && c != result ==> c.tunnels == old(c.tunnels) && c.open == old(c.open)
      {
        var client := clients[i];
        if result != null {
          NoneAfter(before, f, clients[..n], i);
        }
        if client.id == id {
          TakeOut(i, before);
          result := client;
          client.Stop();
        }
      }
    }

    /** Shifts the clients after place i down in the array; the last one stays there too. */
    method TakeOut(i: nat, ghost before: seq<Client>)
      requires Valid() && i < count && Contents() == before
      modifies this`count, clients
      ensures count == old(count) - 1 && clients == old(clients) && Valid()
      ensures Removed(before, i, clients[..old(count)]) && Contents() == before[..i] + before[i + 1..]
    {
      forall k | i <= k < count - 1 {
        clients[k] := clients[k + 1];
      }
      count := count - 1;
    }
  }

  /** With distinct identifiers the places read after a removal hold other clients. */
  lemma NoneAfter(before: seq<Client>, f: nat, after: seq<Client>, i: nat)
    requires DistinctIds(before) && f < i < |before|
    ensures Removed(before, f, after) ==> after[i].id != before[f].id
  {
  }

  /** The place f is taken out, and the last client left twice. */
  ghost predicate Removed(before: seq<Client>, f: nat, after: seq<Client>)
  {
    && |after| == |before| && f < |before|
    && forall k :: 0 <= k < |after| ==> after[k] == before[if k < f || k == |before| - 1 then k else k + 1]
  }
}
