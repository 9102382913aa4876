/** The table of guest-agent connections, indexed by VM id. */
module GuestAgents {
  import opened Text
  import opened VmModel

  const QGA_SOCKET_PREFIX := "/var/run/qga-sock-"

  datatype GuestAgent = GuestAgent(socketPath: string, agentFd: int, initialized: bool)

  class GuestAgentTable {
    const agents: array<GuestAgent>
    var count: int

    ghost predicate Valid()
      reads this, agents
    {
      agents.Length == MAX_NUM_VM
    }

    ghost function Abs(): Agents
      reads this, agents
      requires Valid()
    {
      VmModel.Agents(
        seq(MAX_NUM_VM, i requires 0 <= i < MAX_NUM_VM && Valid() reads this, agents => agents[i].initialized), count)
    }

    constructor ()
      ensures Valid() && fresh(agents)
      ensures Abs() == VmModel.Agents(seq(MAX_NUM_VM, _ => false), 0)
    {
      agents := new GuestAgent[MAX_NUM_VM](_ => GuestAgent("", 0, false));
      count := 0;
    }

    twostate lemma Untouched()
      requires old(Valid()) && unchanged(this) && unchanged(agents)
      ensures Valid() && Abs() == old(Abs())
    {
      assert Abs().live == old(Abs()).live;
    }

    /** Connect unless connected; `fd` is what connecting would return, negative for a refusal. */
    method Init(vmId: int, fd: int) returns (ok: bool)
      requires Valid() && 0 <= vmId < MAX_NUM_VM
      modifies this, agents
      ensures Valid()
      ensures (Abs(), ok) == AgentInit(old(Abs()), vmId, fd >= 0)
      ensures old(agents[vmId].initialized) ==> agents[vmId] == old(agents[vmId])
      ensures ok && !old(agents[vmId].initialized) ==>
                agents[vmId] == GuestAgent(QGA_SOCKET_PREFIX + ShowInt(vmId), fd, true)
      ensures forall v :: 0 <= v < MAX_NUM_VM && v != vmId ==> agents[v] == old(agents[v])
    {
      if agents[vmId].initialized {
        return true;
      }
      if count >= MAX_NUM_VM {
        return false;
      }
      agents[vmId] := agents[vmId].(socketPath := QGA_SOCKET_PREFIX + ShowInt(vmId));
      if fd < 0 {
        assert Abs().live == old(Abs()).live;
        return false;
      }
      agents[vmId] := agents[vmId].(agentFd := fd, initialized := true);
      count := count + 1;
      assert Abs().live == old(Abs()).live[vmId := true];
      ok := true;
    }

    method Cleanup(vmId: int)
      requires Valid() && 0 <= vmId < MAX_NUM_VM
      modifies this, agents
      ensures Valid()
      ensures Abs() == AgentCleanup(old(Abs()), vmId)
      ensures forall v :: 0 <= v < MAX_NUM_VM && v != vmId ==> agents[v] == old(agents[v])
    {
      if agents[vmId].initialized {
        agents[vmId] := agents[vmId].(initialized := false);
        count := count - 1;
        assert Abs().live == old(Abs()).live[vmId := false];
      }
    }
  }
}
