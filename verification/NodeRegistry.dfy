/** The node table and who is who in it. */
module NodeTable {
  import opened Common
  import opened ResourceSpecs

  datatype NodeStatus = UnspecifiedNode | Online | Offline | Draining | Maintenance

  datatype NodeInfo = NodeInfo(
    id: NodeId, hostname: string, ip: string, port: int, osInfo: string, status: NodeStatus,
    total: Resources, available: Resources, registeredAt: int, lastHeartbeat: int, runningJobs: nat)

  type Nodes = map<NodeId, NodeInfo>

  predicate SameMachine(a: NodeInfo, b: NodeInfo) {
    a.hostname == b.hostname && a.ip == b.ip
  }

  /** Keys are the stored ids, ids are never empty, and no machine is listed twice. */
  ghost predicate NodeIdentity(nodes: Nodes) {
    && (forall id :: id in nodes ==> nodes[id].id == id && id != "")
    && (forall id, id' :: id in nodes && id' in nodes && SameMachine(nodes[id], nodes[id']) ==> id == id')
  }

  /** The entry for the machine described by `info`, if it has one. */
  ghost function Known(nodes: Nodes, info: NodeInfo): (r: Option<NodeId>)
    ensures r.Some? ==> r.value in nodes && SameMachine(nodes[r.value], info)
    ensures r.None? ==> forall id :: id in nodes ==> !SameMachine(nodes[id], info)
  {
    if exists id :: id in nodes && SameMachine(nodes[id], info) then
      var id :| id in nodes && SameMachine(nodes[id], info);
      Some(id)
    else None
  }

  function Refreshed(known: NodeInfo, info: NodeInfo, now: int): NodeInfo {
    known.(status := Online, lastHeartbeat := now, total := info.total, available := info.total)
  }

  function Admitted(info: NodeInfo, id: NodeId, now: int): NodeInfo {
    info.(id := id, status := Online, registeredAt := now, lastHeartbeat := now, available := info.total)
  }

  ghost function Register(nodes: Nodes, info: NodeInfo, newId: NodeId, now: int): Nodes {
    match Known(nodes, info)
    case Some(id) => nodes[id := Refreshed(nodes[id], info, now)]
    case None => nodes[newId := Admitted(info, newId, now)]
  }

  ghost function RegisteredAs(nodes: Nodes, info: NodeInfo, newId: NodeId): NodeId {
    if Known(nodes, info).Some? then Known(nodes, info).value else newId
  }

  /** Registering leaves the machine's entry online, with what was registered as total and as available, and
      touches no other entry. The machine is known exactly if host name and address are; then its entry keeps its
      id and the rest of its data, and otherwise it is the registered data under the new id. */
  lemma RegistrationIsExact(nodes: Nodes, info: NodeInfo, newId: NodeId, now: int)
    requires NodeIdentity(nodes) && newId !in nodes
    ensures var id := RegisteredAs(nodes, info, newId);
            var after := Register(nodes, info, newId, now);
            && after.Keys == nodes.Keys + {id}
            && (forall other :: other in nodes && other != id ==> after[other] == nodes[other])
            && after[id].status == Online && after[id].lastHeartbeat == now
            && after[id].total == info.total && after[id].available == info.total
            && (id == newId <==>
                  forall i :: i in nodes ==> nodes[i].hostname != info.hostname || nodes[i].ip != info.ip)
            && (id != newId ==> id in nodes && nodes[id].hostname == info.hostname && nodes[id].ip == info.ip)
            && after[id].id == id
            && (id == newId ==> after[id].registeredAt == now && SameSetup(after[id], info))
            && (id != newId ==> after[id].registeredAt == nodes[id].registeredAt && SameSetup(after[id], nodes[id]))
  {
  }

  /** The same machine set up in the same way, and as busy. */
  predicate SameSetup(a: NodeInfo, b: NodeInfo) {
    && a.hostname == b.hostname && a.ip == b.ip && a.port == b.port && a.osInfo == b.osInfo
    && a.runningJobs == b.runningJobs
  }

  function Beat(nodes: Nodes, id: NodeId, available: Resources, runningJobs: nat, now: int): Nodes {
    if id in nodes then
      nodes[id := nodes[id].(lastHeartbeat := now, status := Online, available := available,
        runningJobs := runningJobs)]
    else nodes
  }

  predicate Late(node: NodeInfo, timeout: nat, now: int) {
    node.status == Online && now - node.lastHeartbeat > timeout
  }

  function TimeOut(nodes: Nodes, timeout: nat, now: int): Nodes {
    map id | id in nodes :: if Late(nodes[id], timeout, now) then nodes[id].(status := Offline) else nodes[id]
  }

  /** The sweep when the nodes in `todo` have yet to be looked at. */
  function TimeOutBut(nodes: Nodes, todo: set<NodeId>, timeout: nat, now: int): Nodes {
    map id | id in nodes ::
      if id !in todo && Late(nodes[id], timeout, now) then nodes[id].(status := Offline) else nodes[id]
  }

  lemma TimeOutStarts(nodes: Nodes, timeout: nat, now: int)
    ensures TimeOutBut(nodes, nodes.Keys, timeout, now) == nodes
  {
  }

  lemma TimeOutOne(nodes: Nodes, todo: set<NodeId>, id: NodeId, timeout: nat, now: int)
    requires id in todo && id in nodes
    ensures TimeOutBut(nodes, todo, timeout, now)[id] == nodes[id]
    ensures TimeOutBut(nodes, todo - {id}, timeout, now) ==
            if Late(nodes[id], timeout, now)
            then TimeOutBut(nodes, todo, timeout, now)[id := nodes[id].(status := Offline)]
            else TimeOutBut(nodes, todo, timeout, now)
  {
  }

  lemma TimeOutEnds(nodes: Nodes, timeout: nat, now: int)
    ensures TimeOutBut(nodes, {}, timeout, now) == TimeOut(nodes, timeout, now)
  {
  }

  datatype Op =
    | DoRegister(info: NodeInfo, newId: NodeId, now: int)
    | DoUnregister(id: NodeId)
    | DoBeat(id: NodeId, available: Resources, runningJobs: nat, now: int)
    | DoTimeOut(timeout: nat, now: int)

  ghost function Apply(nodes: Nodes, op: Op): Nodes {
    match op
    case DoRegister(info, newId, now) => Register(nodes, info, newId, now)
    case DoUnregister(id) => nodes - {id}
    case DoBeat(id, available, runningJobs, now) => Beat(nodes, id, available, runningJobs, now)
    case DoTimeOut(timeout, now) => TimeOut(nodes, timeout, now)
  }

  /** New ids are fresh. */
  ghost predicate FreshRun(nodes: Nodes, ops: seq<Op>)
    decreases ops
  {
    ops == [] ||
    ((ops[0].DoRegister? ==> ops[0].newId !in nodes && ops[0].newId != "") && FreshRun(Apply(nodes, ops[0]), ops[1..]))
  }

  ghost function ApplyAll(nodes: Nodes, ops: seq<Op>): Nodes
    decreases ops
  {
    if ops == [] then nodes else ApplyAll(Apply(nodes, ops[0]), ops[1..])
  }

  lemma OperationKeepsIdentity(nodes: Nodes, op: Op)
    requires NodeIdentity(nodes) && (op.DoRegister? ==> op.newId != "")
    ensures NodeIdentity(Apply(nodes, op))
  {
    var after := Apply(nodes, op);
    match op
    case DoRegister(info, newId, now) =>
      forall id, id' | id in after && id' in after && SameMachine(after[id], after[id']) ensures id == id' {
        var changed := RegisteredAs(nodes, info, newId);
        if id != changed && id' != changed {
          assert SameMachine(nodes[id], nodes[id']);
        } else if Known(nodes, info).Some? {
          assert SameMachine(nodes[id], nodes[id']);
        }
      }
    case DoUnregister(id) =>
      forall i, j | i in after && j in after && SameMachine(after[i], after[j]) ensures i == j {
        assert SameMachine(nodes[i], nodes[j]);
      }
    case DoBeat(id, available, runningJobs, now) =>
      forall i, j | i in after && j in after && SameMachine(after[i], after[j]) ensures i == j {
        assert SameMachine(nodes[i], nodes[j]);
      }
    case DoTimeOut(timeout, now) => TimeOutKeepsIdentity(nodes, timeout, now);
  }

  lemma TimeOutKeepsIdentity(nodes: Nodes, timeout: nat, now: int)
    requires NodeIdentity(nodes)
    ensures NodeIdentity(TimeOut(nodes, timeout, now))
  {
  }

  /** Over every run the identity of nodes is kept; and as long as a node is not unregistered, its machine
      re-registers under the same id. With the fixed host name and address that every agent process sends,
      this means that all of them share one node id. */
  lemma {:induction false} RegistrationIsStable(nodes: Nodes, ops: seq<Op>, id: NodeId, info: NodeInfo, newId: NodeId)
    requires NodeIdentity(nodes) && FreshRun(nodes, ops)
    ensures NodeIdentity(ApplyAll(nodes, ops))
    ensures id in nodes && SameMachine(nodes[id], info) && DoUnregister(id) !in ops
            ==> RegisteredAs(ApplyAll(nodes, ops), info, newId) == id
    decreases ops
  {
    if ops == [] {
      if id in nodes && SameMachine(nodes[id], info) {
        assert Known(nodes, info).Some?;
        assert SameMachine(nodes[Known(nodes, info).value], nodes[id]);
      }
    } else {
      var next := Apply(nodes, ops[0]);
      OperationKeepsIdentity(nodes, ops[0]);
      RegistrationIsStable(next, ops[1..], id, info, newId);
      if id in nodes && SameMachine(nodes[id], info) && DoUnregister(id) !in ops {
        assert id in next && SameMachine(next[id], info);
      }
    }
  }

  /** A heartbeat keeps its node, whatever its status was, and no other, online through every sweep up to
      `timeout` seconds later, with the amounts and the running count it reported; what was registered stays. */
  lemma HeartbeatLastsForTimeout(nodes: Nodes, id: NodeId, available: Resources, runningJobs: nat, beatAt: int,
      timeout: nat, now: int)
    requires id in nodes
    ensures var after := TimeOut(Beat(nodes, id, available, runningJobs, beatAt), timeout, now);
            && (after[id].status == Online <==> now - beatAt <= timeout)
            && after[id].available == available && after[id].runningJobs == runningJobs
            && after[id].lastHeartbeat == beatAt
            && after[id].id == nodes[id].id && after[id].total == nodes[id].total
            && after[id].registeredAt == nodes[id].registeredAt
            && SameSetup(after[id], nodes[id].(runningJobs := runningJobs))
            && (forall other :: other in nodes && other != id ==> after[other] == TimeOut(nodes, timeout, now)[other])
  {
  }

  /** A timeout sweep leaves no online node without a recent heartbeat and changes nothing but the status of
      the late ones. */
  lemma TimeOutIsExact(nodes: Nodes, timeout: nat, now: int)
    ensures var after := TimeOut(nodes, timeout, now);
            && after.Keys == nodes.Keys
            && (forall id :: id in nodes ==> after[id].status == Online ==> now - after[id].lastHeartbeat <= timeout)
            && (forall id :: id in nodes ==> after[id].(status := nodes[id].status) == nodes[id])
            && (forall id :: id in nodes ==>
                  (after[id] != nodes[id] <==> nodes[id].status == Online && now - nodes[id].lastHeartbeat > timeout))
            && (forall id :: id in nodes && after[id] != nodes[id] ==> after[id].status == Offline)
  {
  }
}

module NodeRegistries {
  import opened Common
  import opened ResourceSpecs
  import opened NodeTable

  class NodeRegistry {
    var nodes: Nodes

    ghost predicate Valid()
      reads this
    {
      NodeIdentity(nodes)
    }

    constructor ()
      ensures Valid() && nodes == map[]
    {
      nodes := map[];
    }

    /** `digits` stands for the eight hexadecimal digits drawn at random. */
    method RegisterNode(info: NodeInfo, digits: string, now: int) returns (id: NodeId)
      requires Valid()
      modifies this
      ensures Valid()
      ensures nodes == Register(old(nodes), info, "node-" + digits, now)
      ensures id == RegisteredAs(old(nodes), info, "node-" + digits)
    {
      OperationKeepsIdentity(nodes, DoRegister(info, "node-" + digits, now));
      var todo := nodes.Keys;
      while todo != {}
        invariant todo <= nodes.Keys && nodes == old(nodes)
        invariant forall i :: i in nodes && i !in todo ==> !SameMachine(nodes[i], info)
        decreases todo
      {
        id :| id in todo;
        todo := todo - {id};
        if nodes[id].hostname == info.hostname && nodes[id].ip == info.ip {
          assert SameMachine(nodes[id], nodes[Known(nodes, info).value]);
          var existing := nodes[id];
          existing := existing.(status := Online);
          existing := existing.(lastHeartbeat := now);
          existing := existing.(total := info.total);
          existing := existing.(available := info.total);
          nodes := nodes[id := existing];
          return id;
        }
      }
      id := "node-" + digits;
      var newNode := info.(id := id, status := Online, registeredAt := now, lastHeartbeat := now,
        available := info.total);
      nodes := nodes[id := newNode];
    }

    method UnregisterNode(id: NodeId) returns (ok: bool)
      requires Valid()
      modifies this
      ensures Valid()
      ensures ok == (id in old(nodes))
      ensures nodes == old(nodes) - {id}
    {
      OperationKeepsIdentity(nodes, DoUnregister(id));
      ok := id in nodes;
      if ok {
        nodes := nodes - {id};
      }
      assert nodes == old(nodes) - {id};
    }

    method UpdateHeartbeat(id: NodeId, available: Resources, runningJobs: nat, now: int) returns (ok: bool)
      requires Valid()
      modifies this
      ensures Valid()
      ensures ok == (id in old(nodes))
      ensures nodes == Beat(old(nodes), id, available, runningJobs, now)
    {
      OperationKeepsIdentity(nodes, DoBeat(id, available, runningJobs, now));
      ok := id in nodes;
      if ok {
        var node := nodes[id];
        node := node.(lastHeartbeat := now);
        node := node.(status := Online);
        node := node.(available := available);
        node := node.(runningJobs := runningJobs);
        nodes := nodes[id := node];
      }
    }

    /** Every entry once, in whatever order the hash map has. */
    method GetAllNodes() returns (result: seq<NodeInfo>)
      requires Valid()
      ensures forall k :: 0 <= k < |result| ==> result[k].id in nodes && nodes[result[k].id] == result[k]
      ensures forall id :: id in nodes ==> nodes[id] in result
      ensures forall i, j :: 0 <= i < j < |result| ==> result[i].id != result[j].id
    {
      result := [];
      var todo := nodes.Keys;
      while todo != {}
        invariant todo <= nodes.Keys
        invariant forall k :: 0 <= k < |result| ==>
                  result[k].id in nodes && result[k].id !in todo && nodes[result[k].id] == result[k]
        invariant forall id :: id in nodes && id !in todo ==> nodes[id] in result
        invariant forall i, j :: 0 <= i < j < |result| ==> result[i].id != result[j].id
        decreases todo
      {
        var id :| id in todo;
        todo := todo - {id};
        result := result + [nodes[id]];
      }
    }

    method CheckTimeouts(timeout: nat, now: int)
      requires Valid()
      modifies this
      ensures Valid()
      ensures nodes == TimeOut(old(nodes), timeout, now)
    {
      TimeOutKeepsIdentity(nodes, timeout, now);
      var todo := nodes.Keys;
      TimeOutStarts(nodes, timeout, now);
      while todo != {}
        invariant todo <= old(nodes).Keys && nodes == TimeOutBut(old(nodes), todo, timeout, now)
        decreases todo
      {
        var id :| id in todo;
        TimeOutOne(old(nodes), todo, id, timeout, now);
        if nodes[id].status == Online {
          if now - nodes[id].lastHeartbeat > timeout {
            nodes := nodes[id := nodes[id].(status := Offline)];
          }
        }
        todo := todo - {id};
      }
      TimeOutEnds(old(nodes), timeout, now);
    }
  }
}
