/**
 * The contact graph of the network engines, given as an adjacency list,
 * and the shape of the draws one day's contact scan consumes.
 */
module Graph {
  import opened Common

  /** The graph is an adjacency list over the agents 0 .. n-1. */
  predicate WellFormedGraph(graph: seq<seq<nat>>, n: nat)
  {
    |graph| == n && forall i, c :: 0 <= i < n && 0 <= c < |graph[i]| ==> graph[i][c] < n
  }

  /**
   * One day's draws of the scan: for each agent, k positions in its
   * neighbour list (random.choices with replacement) and k uniform draws.
   */
  predicate WellFormedScanDraws(graph: seq<seq<nat>>, picks: seq<seq<nat>>, us: seq<seq<Uniform>>, k: nat)
  {
    && |picks| == |graph| && |us| == |graph|
    && forall i :: 0 <= i < |graph| ==>
         && |picks[i]| == k && |us[i]| == k
         && (graph[i] != [] ==> forall c :: 0 <= c < k ==> picks[i][c] < |graph[i]|)
  }
}
