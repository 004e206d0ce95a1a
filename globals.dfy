/**
 * The process-wide replica state (port, op/view/commit numbers, mode, the
 * operation log and the client table), the cluster membership loaded from
 * the configuration rows, and the cache of outgoing connections.
 */
module Globals {
  import opened Messages
  import OpLog
  import Table

  /** One parsed configuration row: mode, replica id, port. */
  datatype ConfigRow = ConfigRow(mode: Mode, id: int, port: int)

  /** What the configuration rows determine: the id -> port map and this replica's mode and port. */
  datatype Config = Config(allPorts: map<int, int>, mode: Mode, port: int)

  /** One row applied to the configuration built so far. */
  function ApplyRow(c: Config, row: ConfigRow, selfId: int): Config
  {
    Config(
      c.allPorts[row.id := row.port],
      if row.id == selfId then row.mode else c.mode,
      if row.id == selfId then row.port else c.port)
  }

  /** The configuration after all rows, starting from Go's zero values (empty map, "" mode, port 0). */
  function LoadedConfig(rows: seq<ConfigRow>, selfId: int): Config
  {
    if rows == [] then Config(map[], "", 0)
    else ApplyRow(LoadedConfig(rows[..|rows| - 1], selfId), rows[|rows| - 1], selfId)
  }

  /** The index of the last row with this id, if any. */
  ghost predicate LastRowFor(rows: seq<ConfigRow>, id: int, i: int)
  {
    0 <= i < |rows| && rows[i].id == id && forall j :: i < j < |rows| ==> rows[j].id != id
  }

  /** Each row sets AllPorts[id] = port: an id is present iff some row names it. */
  lemma {:induction false} LoadedPortsMembers(rows: seq<ConfigRow>, selfId: int, id: int)
    ensures id in LoadedConfig(rows, selfId).allPorts <==> exists i :: 0 <= i < |rows| && rows[i].id == id
  {
    if rows != [] {
      var init := rows[..|rows| - 1];
      LoadedPortsMembers(init, selfId, id);
      if exists i :: 0 <= i < |init| && init[i].id == id {
        var i :| 0 <= i < |init| && init[i].id == id;
        assert rows[i].id == id;
      }
    }
  }

  /** Later rows overwrite earlier ones: the port is the last row's for that id. */
  lemma {:induction false} LoadedPortsLastRowWins(rows: seq<ConfigRow>, selfId: int, id: int)
    ensures forall i :: LastRowFor(rows, id, i) ==> id in LoadedConfig(rows, selfId).allPorts
                                                    && LoadedConfig(rows, selfId).allPorts[id] == rows[i].port
  {
    if rows != [] {
      var init := rows[..|rows| - 1];
      LoadedPortsLastRowWins(init, selfId, id);
      if rows[|rows| - 1].id != id {
        forall i | LastRowFor(rows, id, i)
          ensures LastRowFor(init, id, i)
        {
        }
      }
    }
  }

  /** The row whose id is this replica's own sets the mode and the port; without one they keep their zero values. */
  lemma {:induction false} LoadedSelfRow(rows: seq<ConfigRow>, selfId: int)
    ensures forall i :: LastRowFor(rows, selfId, i) ==>
      LoadedConfig(rows, selfId).mode == rows[i].mode && LoadedConfig(rows, selfId).port == rows[i].port
    ensures (forall i :: 0 <= i < |rows| ==> rows[i].id != selfId) ==>
      LoadedConfig(rows, selfId).mode == "" && LoadedConfig(rows, selfId).port == 0
  {
    if rows != [] {
      var init := rows[..|rows| - 1];
      LoadedSelfRow(init, selfId);
      if rows[|rows| - 1].id != selfId {
        forall i | LastRowFor(rows, selfId, i)
          ensures LastRowFor(init, selfId, i)
        {
        }
      }
    }
  }

  /** The configuration fold, row by row as the configuration file is read. */
  method LoadConfig(rows: seq<ConfigRow>, selfId: int) returns (c: Config)
    ensures c == LoadedConfig(rows, selfId)
  {
    var allPorts: map<int, int> := map[];
    var mode: Mode := "";
    var port := 0;
    var i := 0;
    while i < |rows|
      invariant 0 <= i <= |rows|
      invariant Config(allPorts, mode, port) == LoadedConfig(rows[..i], selfId)
    {
      var row := rows[i];
      allPorts := allPorts[row.id := row.port];
      if row.id == selfId {
        mode := row.mode;
        port := row.port;
      }
      assert rows[..i + 1][..i] == rows[..i];
      i := i + 1;
    }
    assert rows[..i] == rows;
    c := Config(allPorts, mode, port);
  }

  /** The ports of the ids visited in `order` whose port is not `port`, in that order. */
  function OtherPorts(allPorts: map<int, int>, port: int, order: seq<int>): seq<int>
    requires forall i :: 0 <= i < |order| ==> order[i] in allPorts
  {
    if order == [] then []
    else
      var rest := OtherPorts(allPorts, port, order[..|order| - 1]);
      var p := allPorts[order[|order| - 1]];
      if p != port then rest + [p] else rest
  }

  /** `order` lists every id of the map exactly once: one run of Go's map iteration. */
  ghost predicate Enumerates(order: seq<int>, ids: set<int>)
  {
    && (forall i, j :: 0 <= i < j < |order| ==> order[i] != order[j])
    && (forall i :: 0 <= i < |order| ==> order[i] in ids)
    && (forall id :: id in ids ==> id in order)
  }

  /** The ids visited in `order` whose port is not `port`. */
  ghost function OtherIds(allPorts: map<int, int>, port: int, order: seq<int>): set<int>
    requires forall i :: 0 <= i < |order| ==> order[i] in allPorts
  {
    if order == [] then {}
    else
      var rest := OtherIds(allPorts, port, order[..|order| - 1]);
      var last := order[|order| - 1];
      if allPorts[last] != port then rest + {last} else rest
  }

  /** No returned port is the replica's own. */
  lemma {:induction false} OtherPortsExcludeOwn(allPorts: map<int, int>, port: int, order: seq<int>)
    requires forall i :: 0 <= i < |order| ==> order[i] in allPorts
    ensures forall p :: p in OtherPorts(allPorts, port, order) ==> p != port
  {
    if order != [] {
      OtherPortsExcludeOwn(allPorts, port, order[..|order| - 1]);
    }
  }

  /** Every visited id whose port differs contributes its port. */
  lemma {:induction false} OtherPortsIncludeOthers(allPorts: map<int, int>, port: int, order: seq<int>)
    requires forall i :: 0 <= i < |order| ==> order[i] in allPorts
    ensures forall i :: 0 <= i < |order| && allPorts[order[i]] != port ==>
      allPorts[order[i]] in OtherPorts(allPorts, port, order)
  {
    if order != [] {
      var init := order[..|order| - 1];
      OtherPortsIncludeOthers(allPorts, port, init);
      forall i | 0 <= i < |order| - 1 && allPorts[order[i]] != port
        ensures allPorts[order[i]] in OtherPorts(allPorts, port, order)
      {
        assert order[i] == init[i];
      }
    }
  }

  lemma {:induction false} OtherIdsMembers(allPorts: map<int, int>, port: int, order: seq<int>, id: int)
    requires forall i :: 0 <= i < |order| ==> order[i] in allPorts
    ensures id in OtherIds(allPorts, port, order) <==> id in order && allPorts[id] != port
  {
    if order != [] {
      var init := order[..|order| - 1];
      OtherIdsMembers(allPorts, port, init, id);
      assert order == init + [order[|order| - 1]];
    }
  }

  /** With no id visited twice, one port is returned per visited id whose port differs. */
  lemma {:induction false} OtherPortsCount(allPorts: map<int, int>, port: int, order: seq<int>)
    requires forall i :: 0 <= i < |order| ==> order[i] in allPorts
    requires forall i, j :: 0 <= i < j < |order| ==> order[i] != order[j]
    ensures |OtherPorts(allPorts, port, order)| == |OtherIds(allPorts, port, order)|
  {
    if order != [] {
      var init := order[..|order| - 1];
      var last := order[|order| - 1];
      OtherPortsCount(allPorts, port, init);
      OtherIdsMembers(allPorts, port, init, last);
    }
  }

  /** With `order` an enumeration of the map, the result has one element per entry whose port differs. */
  lemma AllOtherPortsCount(allPorts: map<int, int>, port: int, order: seq<int>)
    requires Enumerates(order, allPorts.Keys)
    ensures |OtherPorts(allPorts, port, order)| == |set id | id in allPorts && allPorts[id] != port|
  {
    OtherPortsCount(allPorts, port, order);
    forall id
      ensures id in OtherIds(allPorts, port, order) <==> id in allPorts && allPorts[id] != port
    {
      OtherIdsMembers(allPorts, port, order, id);
    }
    assert OtherIds(allPorts, port, order) == set id | id in allPorts && allPorts[id] != port;
  }

  /** Every returned port is the port of some visited id. */
  lemma {:induction false} OtherPortsFromOrder(allPorts: map<int, int>, port: int, order: seq<int>)
    requires forall i :: 0 <= i < |order| ==> order[i] in allPorts
    ensures forall p :: p in OtherPorts(allPorts, port, order) ==>
      exists i :: 0 <= i < |order| && allPorts[order[i]] == p
  {
    if order != [] {
      var init := order[..|order| - 1];
      OtherPortsFromOrder(allPorts, port, init);
      forall p | p in OtherPorts(allPorts, port, init)
        ensures exists i :: 0 <= i < |order| && allPorts[order[i]] == p
      {
        var i :| 0 <= i < |init| && allPorts[init[i]] == p;
        assert order[i] == init[i];
      }
      assert allPorts[order[|order| - 1]] == allPorts[order[|order| - 1]];
    }
  }

  /** Over one iteration of the map, the result holds exactly the ports of the map other than its own. */
  lemma OtherPortsAreEveryOther(allPorts: map<int, int>, port: int, order: seq<int>)
    requires Enumerates(order, allPorts.Keys)
    ensures forall p :: p in OtherPorts(allPorts, port, order) <==> p != port && p in allPorts.Values
  {
    OtherPortsExcludeOwn(allPorts, port, order);
    OtherPortsIncludeOthers(allPorts, port, order);
    OtherPortsFromOrder(allPorts, port, order);
    forall id | id in allPorts && allPorts[id] != port
      ensures allPorts[id] in OtherPorts(allPorts, port, order)
    {
      var i :| 0 <= i < |order| && order[i] == id;
    }
  }

  /** An outgoing connection, opaque to this model. */
  type Client = nat

  /** What dialing a hostname would give: a connection, or the dial error. */
  datatype DialResult = Dialed(client: Client) | DialFailed(reason: string)

  class Globals {
    const id: int
    var port: int
    var opNum: int
    var viewNum: int
    var commitNum: int
    var mode: Mode
    var opLog: OpLog.OpRequestLog
    var clientTable: Table.ClientTable
    var allPorts: map<int, int>
    var clients: map<string, Client>

    ghost predicate Valid()
      reads this, clientTable
    {
      clientTable.Valid()
    }

    /** Process start: membership from the configuration rows, all counters zero, log and table empty. */
    constructor Load(selfId: int, rows: seq<ConfigRow>)
      ensures id == selfId
      ensures Config(allPorts, mode, port) == LoadedConfig(rows, selfId)
      ensures opNum == 0 && viewNum == 0 && commitNum == 0
      ensures opLog.requests == [] && clientTable.State() == Table.EmptyTable()
      ensures clients == map[]
      ensures fresh(opLog) && fresh(clientTable) && Valid()
    {
      id := selfId;
      var c := LoadConfig(rows, selfId);
      allPorts, mode, port := c.allPorts, c.mode, c.port;
      opNum, viewNum, commitNum := 0, 0, 0;
      opLog := new OpLog.OpRequestLog.New();
      clientTable := new Table.ClientTable.New();
      clients := map[];
    }

    /**
     * All other replicas' ports, visiting the ids in `order`, one run of the
     * map's iteration: every port of the map but the own, once per entry.
     */
    method AllOtherPorts(order: seq<int>) returns (ps: seq<int>)
      requires Enumerates(order, allPorts.Keys)
      ensures ps == OtherPorts(allPorts, port, order)
      ensures forall p :: p in ps <==> p != port && p in allPorts.Values
      ensures |ps| == |set id | id in allPorts && allPorts[id] != port|
    {
      OtherPortsAreEveryOther(allPorts, port, order);
      AllOtherPortsCount(allPorts, port, order);
      ps := [];
      for i := 0 to |order|
        invariant ps == OtherPorts(allPorts, port, order[..i])
      {
        assert order[..i + 1][..i] == order[..i];
        var p := allPorts[order[i]];
        if p != port {
          ps := ps + [p];
        }
      }
      assert order[..|order|] == order;
    }

    /** The cached connection for a hostname, or a new one from `dial`; a failed dial leaves the cache alone. */
    method GetOrCreateClient(hostname: string, dial: DialResult) returns (client: Option<Client>, err: Option<string>, dialed: bool)
      modifies this`clients
      ensures hostname in old(clients) ==>
        client == Some(old(clients)[hostname]) && err == None && !dialed && clients == old(clients)
      ensures hostname !in old(clients) && dial.DialFailed? ==>
        client == None && err.Some? && dialed && clients == old(clients)
      ensures hostname !in old(clients) && dial.Dialed? ==>
        client == Some(dial.client) && err == None && dialed && clients == old(clients)[hostname := dial.client]
    {
      if hostname in clients {
        return Some(clients[hostname]), None, false;
      }
      dialed := true;
      match dial
      case DialFailed(reason) =>
        client, err := None, Some("failed to dial " + hostname + ": " + reason);
      case Dialed(c) =>
        clients := clients[hostname := c];
        client, err := Some(c), None;
    }
  }
}
