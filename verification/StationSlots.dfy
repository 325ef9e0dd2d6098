/** Nodes that hold their ids rightly share the bus without collisions. */
module StationSlots {
  import opened Microbus
  import opened Stations
  import S = Schedule

  /** Collision freedom needs no assumption on ids: nodes whose schedules agree
      with the master's, holding ids from such a run, never transmit together. */
  lemma NoCollisionOnNetwork(ys: seq<Network>, es: seq<Happening>, nets: seq<S.Net>, between: seq<S.Net>,
                             levels: seq<nat>, heard: seq<seq<bool>>, i: nat, j: nat)
    requires IsRun(ys, es) && Fresh(ys[0]) && AllTimely(ys, es)
    requires S.NetRun(nets, between, levels, heard) && S.PowerUp(nets[0]) && between != []
    requires var nodes := nets[|between|].nodes;
      && |nodes| == |ys[|es|].stations| && i < |nodes| && j < |nodes|
      && (forall k :: 0 <= k < |nodes| ==> nodes[k].nodeId == ys[|es|].stations[k].nodeId)
      && S.Transmits(nodes[i]) && S.Transmits(nodes[j])
    ensures i == j && nets[|between|].nodes[i].nodeId == nets[|between|].current
  {
    hide S.NetRun, S.PowerUp, OwnJoin;
    RunKeepsIdsDistinct(ys, es);
    assert forall k :: 0 <= k < |ys[|es|].stations| ==> Held(ys[|es|].members, ys[|es|].stations[k]);
    S.NoCollision(nets, between, levels, heard, i, j);
  }
}
