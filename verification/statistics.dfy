/** The iteration statistics (alns/Statistics.py): an append-only trace of
    objective values and per-operator outcome counts that default to four
    zeros and are never changed by this version's collectors. */
module Statistics {

  /** Each count list has one slot per outcome. */
  const ZeroCounts: seq<nat> := [0, 0, 0, 0]

  datatype Stats = Stats(objectives: seq<real>,
                         destroyCounts: map<string, seq<nat>>,
                         repairCounts: map<string, seq<nat>>)

  /** Every count list present is still the default one. */
  predicate Valid(s: Stats) {
    (forall k :: k in s.destroyCounts ==> s.destroyCounts[k] == ZeroCounts) &&
    (forall k :: k in s.repairCounts ==> s.repairCounts[k] == ZeroCounts)
  }

  function New(): (r: Stats)
    ensures r.objectives == [] && Valid(r)
  {
    Stats([], map[], map[])
  }

  /** Appends one objective value; nothing before it changes. */
  function CollectObjective(s: Stats, objective: real): (r: Stats)
    ensures |r.objectives| == |s.objectives| + 1
    ensures r.objectives[|s.objectives|] == objective
    ensures r.objectives[..|s.objectives|] == s.objectives
    ensures r.destroyCounts == s.destroyCounts && r.repairCounts == s.repairCounts
  {
    s.(objectives := s.objectives + [objective])
  }

  /** Reading the counts of an operator: an unseen operator is entered with
      the default counts, as a defaulting dictionary does on lookup. */
  function DestroyCounts(s: Stats, op: string): (r: (Stats, seq<nat>))
    requires Valid(s)
    ensures Valid(r.0) && r.1 == ZeroCounts
    ensures op in r.0.destroyCounts && r.0.destroyCounts.Keys == s.destroyCounts.Keys + {op}
    ensures r.0.objectives == s.objectives && r.0.repairCounts == s.repairCounts
  {
    if op in s.destroyCounts then (s, s.destroyCounts[op])
    else (s.(destroyCounts := s.destroyCounts[op := ZeroCounts]), ZeroCounts)
  }

  function RepairCounts(s: Stats, op: string): (r: (Stats, seq<nat>))
    requires Valid(s)
    ensures Valid(r.0) && r.1 == ZeroCounts
    ensures op in r.0.repairCounts && r.0.repairCounts.Keys == s.repairCounts.Keys + {op}
    ensures r.0.objectives == s.objectives && r.0.destroyCounts == s.destroyCounts
  {
    if op in s.repairCounts then (s, s.repairCounts[op])
    else (s.(repairCounts := s.repairCounts[op := ZeroCounts]), ZeroCounts)
  }

  /** The operator-count collectors of this version do nothing. */
  function CollectDestroyOperatorCount(s: Stats, op: string, weight: real): (r: Stats)
    ensures r == s
  {
    s
  }

  function CollectRepairOperatorCount(s: Stats, op: string, weight: real): (r: Stats)
    ensures r == s
  {
    s
  }

  /** Collecting `k` values one by one leaves exactly those values, in
      order, after the ones already there. */
  function CollectAll(s: Stats, objectives: seq<real>): (r: Stats)
    decreases |objectives|
  {
    if |objectives| == 0 then s
    else CollectAll(CollectObjective(s, objectives[0]), objectives[1..])
  }

  lemma {:induction false} CollectAllAppends(s: Stats, objectives: seq<real>)
    ensures CollectAll(s, objectives).objectives == s.objectives + objectives
    decreases |objectives|
  {
    if |objectives| > 0 {
      var next := CollectObjective(s, objectives[0]);
      CollectAllAppends(next, objectives[1..]);
      assert next.objectives + objectives[1..] == s.objectives + objectives;
    }
  }
}
