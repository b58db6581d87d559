// The simulated network of lab3/labrpc/labrpc.go: its tables, and the operations that
// lock them. Servers are named by number, as config.go does; a ServerRef stands for the
// identity of a *Server object.
module Labrpc {
  import opened Util

  type EndName = string
  type ServerName = nat
  type ServerRef = nat

  /** The tables guarded by Network.mu. */
  datatype Net = Net(
    ends: set<EndName>,
    enabled: map<EndName, bool>,
    connections: map<EndName, Option<ServerName>>,
    servers: map<ServerName, Option<ServerRef>>,
    reliable: bool,
    longReordering: bool)

  /** What readEndnameInfo reports about an end-point. */
  datatype EndInfo = EndInfo(
    enabled: bool,
    servername: Option<ServerName>,
    server: Option<ServerRef>,
    reliable: bool,
    longReordering: bool)

  const EMPTY_NET := Net({}, map[], map[], map[], true, false)

  // Reading a Go map at a missing key gives the zero value: false, or nil.

  predicate EndEnabled(net: Net, e: EndName) {
    e in net.enabled && net.enabled[e]
  }

  function ConnectionOf(net: Net, e: EndName): Option<ServerName> {
    if e in net.connections then net.connections[e] else None
  }

  function ServerAt(net: Net, i: ServerName): Option<ServerRef> {
    if i in net.servers then net.servers[i] else None
  }

  function EndnameInfo(net: Net, e: EndName): EndInfo {
    var servername := ConnectionOf(net, e);
    EndInfo(EndEnabled(net, e), servername,
            if servername.Some? then ServerAt(net, servername.value) else None,
            net.reliable, net.longReordering)
  }

  predicate ServerDead(net: Net, e: EndName, i: ServerName, server: ServerRef) {
    !EndEnabled(net, e) || ServerAt(net, i) != Some(server)
  }

  // ---------- changes of the tables ----------

  /** A call of one of the methods below, each of which holds the lock throughout. */
  datatype Call =
    | MakeEndCall(e: EndName)
    | ConnectCall(e: EndName, i: ServerName)
    | EnableCall(e: EndName, b: bool)
    | AddServerCall(i: ServerName, server: ServerRef)
    | DeleteServerCall(i: ServerName)

  function Applied(net: Net, c: Call): Net {
    match c
    case MakeEndCall(e) =>
      net.(ends := net.ends + {e}, enabled := net.enabled[e := false], connections := net.connections[e := None])
    case ConnectCall(e, i) => net.(connections := net.connections[e := Some(i)])
    case EnableCall(e, b) => net.(enabled := net.enabled[e := b])
    case AddServerCall(i, server) => net.(servers := net.servers[i := Some(server)])
    case DeleteServerCall(i) => net.(servers := net.servers[i := None])
  }

  function After(net: Net, calls: seq<Call>): Net {
    if calls == [] then net else Applied(After(net, calls[..|calls| - 1]), calls[|calls| - 1])
  }

  lemma AfterSnoc(net: Net, calls: seq<Call>, c: Call)
    ensures After(net, calls + [c]) == Applied(After(net, calls), c)
  {
    assert (calls + [c])[..|calls|] == calls;
  }

  lemma {:induction false} AfterAppend(net: Net, s: seq<Call>, t: seq<Call>)
    ensures After(net, s + t) == After(After(net, s), t)
  {
    if t == [] {
      assert s + t == s;
    } else {
      AfterAppend(net, s, t[..|t| - 1]);
      assert (s + t)[..|s + t| - 1] == s + t[..|t| - 1];
    }
  }

  /** Only a call that enables an end-point makes it enabled. */
  lemma {:induction false} EnabledByCall(net: Net, calls: seq<Call>, e: EndName)
    requires EndEnabled(After(net, calls), e)
    ensures EndEnabled(net, e) || EnableCall(e, true) in calls
  {
    if calls != [] && calls[|calls| - 1] != EnableCall(e, true) {
      EnabledByCall(net, calls[..|calls| - 1], e);
    }
  }

  /** calls lists the changes of the tables so far. */
  class Network {
    var ends: set<EndName>
    var enabled: map<EndName, bool>
    var connections: map<EndName, Option<ServerName>>
    var servers: map<ServerName, Option<ServerRef>>
    var reliable: bool
    var longReordering: bool
    ghost var calls: seq<Call>

    ghost function View(): Net
      reads this
    {
      Net(ends, enabled, connections, servers, reliable, longReordering)
    }

    constructor ()
      ensures View() == EMPTY_NET && calls == []
    {
      ends, enabled, connections, servers := {}, map[], map[], map[];
      reliable, longReordering := true, false;
      calls := [];
    }

    /** MakeEnd stops the whole process (fatal) when the name already exists. */
    method MakeEnd(e: EndName) returns (fatal: bool)
      modifies this
      ensures fatal == (e in old(ends))
      ensures fatal ==> View() == old(View())
      ensures !fatal ==>
                && ends == old(ends) + {e} && enabled == old(enabled)[e := false]
                && connections == old(connections)[e := None] && servers == old(servers)
                && reliable == old(reliable) && longReordering == old(longReordering)
      ensures !fatal ==> View() == Applied(old(View()), MakeEndCall(e))
      ensures calls == if fatal then old(calls) else old(calls) + [MakeEndCall(e)]
    {
      if e in ends {
        return true;
      }
      ends := ends + {e};
      enabled := enabled[e := false];
      connections := connections[e := None];
      calls := calls + [MakeEndCall(e)];
      fatal := false;
    }

    method AddServer(i: ServerName, server: ServerRef)
      modifies `servers, `calls
      ensures servers == old(servers)[i := Some(server)]
      ensures View() == Applied(old(View()), AddServerCall(i, server))
      ensures calls == old(calls) + [AddServerCall(i, server)]
    {
      servers := servers[i := Some(server)];
      calls := calls + [AddServerCall(i, server)];
    }

    method DeleteServer(i: ServerName)
      modifies `servers, `calls
      ensures servers == old(servers)[i := None]
      ensures View() == Applied(old(View()), DeleteServerCall(i))
      ensures calls == old(calls) + [DeleteServerCall(i)]
    {
      servers := servers[i := None];
      calls := calls + [DeleteServerCall(i)];
    }

    method Connect(e: EndName, i: ServerName)
      modifies `connections, `calls
      ensures connections == old(connections)[e := Some(i)]
      ensures View() == Applied(old(View()), ConnectCall(e, i))
      ensures calls == old(calls) + [ConnectCall(e, i)]
    {
      connections := connections[e := Some(i)];
      calls := calls + [ConnectCall(e, i)];
    }

    method Enable(e: EndName, b: bool)
      modifies `enabled, `calls
      ensures enabled == old(enabled)[e := b]
      ensures View() == Applied(old(View()), EnableCall(e, b))
      ensures calls == old(calls) + [EnableCall(e, b)]
    {
      enabled := enabled[e := b];
      calls := calls + [EnableCall(e, b)];
    }

    method ReadEndnameInfo(e: EndName) returns (info: EndInfo)
      ensures info == EndnameInfo(View(), e)
      ensures info.enabled <==> e in enabled && enabled[e]
      ensures info.servername == if e in connections then connections[e] else None
      ensures info.server == if info.servername.Some? && info.servername.value in servers
                             then servers[info.servername.value] else None
      ensures info.reliable == reliable && info.longReordering == longReordering
    {
      var servername := if e in connections then connections[e] else None;
      var server := None;
      if servername.Some? && servername.value in servers {
        server := servers[servername.value];
      }
      info := EndInfo(e in enabled && enabled[e], servername, server, reliable, longReordering);
    }

    method IsServerDead(e: EndName, i: ServerName, server: ServerRef) returns (dead: bool)
      ensures dead == ServerDead(View(), e, i, server)
      ensures !dead <==> e in enabled && enabled[e] && i in servers && servers[i] == Some(server)
    {
      var live := if i in servers then servers[i] else None;
      dead := !(e in enabled && enabled[e]) || live != Some(server);
    }
  }
}
