/**
 * The per-state history the network engines keep: a dictionary from a
 * state's label to its list of daily counts, and the list of the full
 * state lists that were counted. `codes` maps each label to the state code
 * it counts; the codes of a model are 0 .. numCodes-1.
 */
module History {
  import opened Common

  /**
   * The history agrees with the recorded state lists: the labels are
   * exactly those of `codes`, one entry per label per recorded day, each
   * the count of its code in that day's list of n valid codes.
   */
  predicate Recorded(codes: map<string, int>, numCodes: nat, n: nat,
                     history: map<string, seq<nat>>, historyStates: seq<seq<int>>)
  {
    && history.Keys == codes.Keys
    && (forall k :: k in history ==> |history[k]| == |historyStates|)
    && (forall t :: 0 <= t < |historyStates| ==> |historyStates[t]| == n)
    && (forall t, i :: 0 <= t < |historyStates| && 0 <= i < |historyStates[t]| ==> 0 <= historyStates[t][i] < numCodes)
    && (forall k, t :: k in history && k in codes && 0 <= t < |historyStates| ==>
          history[k][t] == Count(historyStates[t], codes[k]))
  }

  /** A history with every label present and no entries. */
  function Empty(codes: map<string, int>): (h: map<string, seq<nat>>)
    ensures h.Keys == codes.Keys && forall k :: k in h ==> h[k] == []
  {
    map k | k in codes.Keys :: []
  }

  /** Every history list with the count of its code in `states` appended. */
  function Logged(codes: map<string, int>, history: map<string, seq<nat>>, states: seq<int>): (h: map<string, seq<nat>>)
    requires history.Keys == codes.Keys
    ensures h.Keys == codes.Keys
    ensures forall k :: k in codes ==> h[k] == history[k] + [Count(states, codes[k])]
  {
    map k | k in history.Keys :: history[k] + [Count(states, codes[k])]
  }

  /** Appending one day's valid state list and its counts keeps the history recorded. */
  lemma LogKeepsRecorded(codes: map<string, int>, numCodes: nat, n: nat,
                         history: map<string, seq<nat>>, historyStates: seq<seq<int>>, states: seq<int>)
    requires Recorded(codes, numCodes, n, history, historyStates)
    requires |states| == n && forall i :: 0 <= i < n ==> 0 <= states[i] < numCodes
    ensures Recorded(codes, numCodes, n, Logged(codes, history, states), historyStates + [states])
  {
    var history' := Logged(codes, history, states);
    var historyStates' := historyStates + [states];
    var last := |historyStates|;
    forall k, t | k in history' && k in codes && 0 <= t < |historyStates'|
      ensures history'[k][t] == Count(historyStates'[t], codes[k])
    {
      if t < last {
        assert historyStates'[t] == historyStates[t];
      }
    }
    forall t, i | 0 <= t < |historyStates'| && 0 <= i < |historyStates'[t]|
      ensures 0 <= historyStates'[t][i] < numCodes
    {
      if t < last {
        assert historyStates'[t] == historyStates[t];
      }
    }
  }

  /** An empty history is recorded. */
  lemma EmptyRecorded(codes: map<string, int>, numCodes: nat, n: nat)
    ensures Recorded(codes, numCodes, n, Empty(codes), [])
  {
  }
}
