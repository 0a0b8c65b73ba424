/** The load balancer as the file service sees it: an object whose `Next`
    call returns a node id and advances the object's own state. Its policy
    is not fixed: `schedule(n)` is whatever node the policy answers on its
    n-th call, so nothing here assumes round-robin order or distinct nodes. */
module LoadBalancer {

  type NodeId = string

  class NodeSelector {
    /** The node the policy answers on each call, by call number. */
    const schedule: nat -> NodeId
    /** Number of calls answered so far. */
    var calls: nat

    constructor (schedule: nat -> NodeId)
      ensures this.schedule == schedule && calls == 0
    {
      this.schedule := schedule;
      calls := 0;
    }

    /** getNextNode: answers the policy's node for this call and advances. */
    method Next() returns (node: NodeId)
      modifies this
      ensures node == schedule(old(calls))
      ensures calls == old(calls) + 1
    {
      node := schedule(calls);
      calls := calls + 1;
    }
  }
}
