/** The followers' processes behind a lossy network. The leader can only send them
    requests; what the network does to each request is chosen freely. */
module Network {
  import opened KvConstants
  import opened Follower
  import opened TwoPhaseCommit

  class Network {
    var nodes: map<nat, Node>
    ghost var applied: map<nat, seq<Txn>>
    ghost var committed: seq<Txn>
    ghost var crashed: bool

    constructor (nodes: map<nat, Node>)
      ensures this.nodes == nodes && committed == [] && !crashed
      ensures applied == map f | f in nodes :: []
    {
      this.nodes := nodes;
      applied := map f | f in nodes :: [];
      committed := [];
      crashed := false;
    }

    /** The protocol state, with the leader at `phase`. */
    ghost function View(phase: Phase): State
      reads this
    {
      State(nodes, applied, phase, committed, crashed)
    }

    /** Connect to follower `f`, send `req` and wait for the reply. */
    method Call(f: nat, req: Request, d: Delivery) returns (r: Option<Response>)
      requires f in nodes && f in applied
      modifies this`nodes, this`applied, this`crashed
      ensures forall phase :: View(phase) == Send(old(View(phase)), f, req, d)
      ensures r == Answer(old(View(Idle)), f, req, d)
      ensures nodes.Keys == old(nodes.Keys) && applied.Keys == old(applied.Keys)
    {
      r := None;
      assert applied[f] + [] == applied[f] && applied == applied[f := applied[f]] && nodes == nodes[f := nodes[f]];
      if !d.Lost? {
        ghost var before := nodes[f].slot;
        match Handle(nodes[f], req) {
          case Crash => crashed := true;
          case Reply(n, res) =>
            nodes := nodes[f := n];
            ghost var done := if req.kind == Commit && Pending(before).Some? then [Pending(before).value] else [];
            applied := applied[f := applied[f] + done];
            if d.Replied? { r := Some(res); }
        }
      }
    }
  }
}
