/**
 Replica counts for static scaling: the strategies' own counts, scaled down together when their memory exceeds the
 budget (pipeline/config/replica_resolver.py). Floating-point numbers are exact here.
 */
module ReplicaResolver {
  import opened Sequences

  datatype Strategy = Static | CpuPercentage | MemoryThresholding | MemoryStaticGlobalPercent

  datatype StrategyConfig = StrategyConfig(
    strategy: Strategy, value: Option<int>, limit: Option<nat>, cpuPercent: Option<real>, memoryPerReplica: Option<nat>)

  /** static_replicas: not set, a number, or a strategy. */
  datatype Replicas = Unset | Fixed(count: int) | Computed(config: StrategyConfig)

  datatype Stage = Stage(name: string, replicas: Replicas)

  /** What the system probe reports; both numbers may be fractions. */
  datatype System = System(totalMemory: real, cpuCount: real)

  /** Python's "x or d" for an optional number. */
  function Or(x: Option<int>, d: int): int {
    if x.Some? && x.value != 0 then x.value else d
  }

  function AvailableMemory(system: System, share: real): int {
    (system.totalMemory * share).Floor
  }

  /** How many replicas of this size fit, at least one and at most the limit. */
  function FittingReplicas(config: StrategyConfig, system: System, share: real): int {
    var fitting := Max(1, AvailableMemory(system, share) / Or(config.memoryPerReplica, 1000));
    Min(fitting, Or(config.limit, fitting))
  }

  /** _calculate_baseline_static_replicas: the CPU count may itself be the limit, so the result may be a fraction. */
  function Baseline(config: StrategyConfig, system: System, threshold: real): real {
    match config.strategy
    case Static => Or(config.value, 1) as real
    case CpuPercentage =>
      var percent := if config.cpuPercent.Some? && config.cpuPercent.value != 0.0 then config.cpuPercent.value else 0.5;
      var limit := if Or(config.limit, 0) != 0 then config.limit.value as real else system.cpuCount;
      var calculated := Max(1, (system.cpuCount * percent).Floor) as real;
      if limit < calculated then limit else calculated
    case MemoryThresholding => FittingReplicas(config, system, 0.7) as real
    case MemoryStaticGlobalPercent => FittingReplicas(config, system, threshold) as real
  }

  /** What the configuration schema asks of limits and memory. */
  predicate ValidConfig(config: StrategyConfig) {
    && (config.limit.Some? ==> config.limit.value >= 1)
    && (config.memoryPerReplica.Some? ==> config.memoryPerReplica.value >= 1)
  }

  ghost predicate ValidStages(stages: seq<Stage>) {
    forall s :: s in stages && s.replicas.Computed? ==> ValidConfig(s.replicas.config)
  }

  /** A baseline is below one exactly for a negative static value or on less than one CPU. */
  lemma BaselineIsPositive(config: StrategyConfig, system: System, threshold: real)
    requires ValidConfig(config) && system.cpuCount > 0.0
    ensures Baseline(config, system, threshold) < 1.0
            <==> match config.strategy
                 case Static => Or(config.value, 1) < 1
                 case CpuPercentage => config.limit.None? && system.cpuCount < 1.0
                 case _ => false
    ensures Baseline(config, system, threshold) > 0.0 || config.strategy.Static?
  {
  }

  /** A limit is never exceeded. */
  lemma BaselineWithinLimit(config: StrategyConfig, system: System, threshold: real)
    requires ValidConfig(config) && system.cpuCount > 0.0 && config.limit.Some? && !config.strategy.Static?
    ensures Baseline(config, system, threshold) <= config.limit.value as real
  {
  }

  /** b is the most replicas of m that fit into the share of the memory, but at least one and at most the limit. */
  ghost predicate MostThatFit(b: real, m: nat, limit: Option<nat>, system: System, share: real) {
    var memory := system.totalMemory * share;
    && b >= 1.0 && b.Floor as real == b && (limit.Some? ==> b <= limit.value as real)
    && (b == 1.0 || b * m as real <= memory)
    && ((limit.Some? && b == limit.value as real) || (b + 1.0) * m as real > memory)
  }

  /** b is the whole part of the wanted CPUs, but at least one, or the limit when that is less. */
  ghost predicate CpusWithin(b: real, wanted: real, limit: real) {
    && b <= limit && (b == limit || (b >= 1.0 && b.Floor as real == b && b + 1.0 > wanted))
    && (b <= 1.0 || b <= wanted)
  }

  /** What the configuration asks for, in terms of what the system has. */
  ghost predicate Wanted(config: StrategyConfig, system: System, threshold: real, b: real) {
    match config.strategy
    case Static => b == if config.value.Some? && config.value.value != 0 then config.value.value as real else 1.0
    case CpuPercentage =>
      var percent := if config.cpuPercent.Some? && config.cpuPercent.value != 0.0 then config.cpuPercent.value else 0.5;
      var limit := if config.limit.Some? then config.limit.value as real else system.cpuCount;
      CpusWithin(b, system.cpuCount * percent, limit)
    case MemoryThresholding => MostThatFit(b, PerReplica(config), config.limit, system, 0.7)
    case MemoryStaticGlobalPercent => MostThatFit(b, PerReplica(config), config.limit, system, threshold)
  }

  /** The memory strategies take 1000 MB when the configuration gives no memory. */
  function PerReplica(config: StrategyConfig): nat {
    if config.memoryPerReplica.Some? then config.memoryPerReplica.value else 1000
  }

  lemma BaselineIsWanted(config: StrategyConfig, system: System, threshold: real)
    requires ValidConfig(config)
    ensures Wanted(config, system, threshold, Baseline(config, system, threshold))
  {
    if config.strategy.MemoryThresholding? { FittingIsMost(config, system, 0.7); }
    if config.strategy.MemoryStaticGlobalPercent? { FittingIsMost(config, system, threshold); }
  }

  lemma FittingIsMost(config: StrategyConfig, system: System, share: real)
    requires ValidConfig(config)
    ensures MostThatFit(FittingReplicas(config, system, share) as real, PerReplica(config), config.limit, system,
                        share)
  {
    hide Cost, Taken, AvailableMemory, MostThatFit;
    var m, available, b := PerReplica(config), AvailableMemory(system, share), FittingReplicas(config, system, share);
    assert Or(config.memoryPerReplica, 1000) == m >= 1;
    QuotientFits(available, m);
    var q := available / m;
    if b <= q { TakenGrows(b, q, m); } else { TakenGrows(q + 1, b, m); }
    TakenGrows(q, b, m);
    if q <= b { TakenGrows(q + 1, b + 1, m); }
    CostOf(b, m);
    CostOf(b + 1, m);
    WholePart(system, share, Taken(b, m));
    WholePart(system, share, Taken(b + 1, m));
    MostByCost(b as real, m, config.limit, system, share);
  }

  lemma MostByCost(b: real, m: nat, limit: Option<nat>, system: System, share: real)
    ensures MostThatFit(b, m, limit, system, share)
            <==> && b >= 1.0 && b.Floor as real == b && (limit.Some? ==> b <= limit.value as real)
                 && (b == 1.0 || Cost(b, m) <= system.totalMemory * share)
                 && ((limit.Some? && b == limit.value as real) || Cost(b + 1.0, m) > system.totalMemory * share)
  {
  }

  lemma WholePart(system: System, share: real, taken: int)
    ensures taken <= AvailableMemory(system, share) <==> taken as real <= system.totalMemory * share
  {
    var memory := system.totalMemory * share;
    assert AvailableMemory(system, share) == memory.Floor;
  }

  lemma QuotientFits(a: int, m: nat)
    requires m >= 1
    ensures Taken(a / m, m) <= a < Taken(a / m + 1, m)
  {
  }

  lemma TakenGrows(a: int, b: int, m: nat)
    ensures a <= b ==> Taken(a, m) <= Taken(b, m)
  {
  }

  /** The count of a memory strategy is determined by that. */
  lemma MostIsUnique(b: real, c: real, m: nat, limit: Option<nat>, system: System, share: real)
    requires m >= 1 && MostThatFit(b, m, limit, system, share) && MostThatFit(c, m, limit, system, share)
    ensures b == c
  {
    hide MostThatFit, Cost;
    MostByCost(b, m, limit, system, share);
    MostByCost(c, m, limit, system, share);
    if b < c {
      NextWhole(b, c);
      CostMonotone(b + 1.0, c, m);
    } else if c < b {
      NextWhole(c, b);
      CostMonotone(c + 1.0, b, m);
    }
  }

  lemma NextWhole(b: real, c: real)
    requires b.Floor as real == b && c.Floor as real == c && b < c
    ensures b + 1.0 <= c
  {
    var i, j := b.Floor, c.Floor;
    assert i < j && (i + 1) as real <= j as real;
  }

  // --- the demand of all stages ----------------------------------------------------------------------------

  /** What one stage asks for: a baseline of replicas, each of so much memory. */
  datatype Demand = Demand(baseline: real, memory: nat)

  function DemandOf(stage: Stage, system: System, threshold: real): Demand
    requires stage.replicas.Computed?
  {
    var config := stage.replicas.config;
    Demand(Baseline(config, system, threshold), MemoryOf(config))
  }

  function MemoryOf(config: StrategyConfig): nat {
    if config.memoryPerReplica.Some? then config.memoryPerReplica.value else 0
  }

  /** The demands of the stages with a strategy, in order. */
  function Demands(stages: seq<Stage>, system: System, threshold: real): seq<Demand> {
    if stages == [] then []
    else
      var last := stages[|stages| - 1];
      Demands(stages[..|stages| - 1], system, threshold)
      + if last.replicas.Computed? then [DemandOf(last, system, threshold)] else []
  }

  function TotalDemand(demands: seq<Demand>): real {
    if demands == [] then 0.0
    else
      var last := demands[|demands| - 1];
      TotalDemand(demands[..|demands| - 1]) + Cost(last.baseline, last.memory)
  }

  /** The memory of so many replicas. */
  function Cost(replicas: real, memory: nat): real {
    replicas * memory as real
  }

  /** The scaling factor: one within the budget, otherwise what brings the demand down to it. */
  function Factor(available: nat, total: real): real {
    if total <= available as real then 1.0 else available as real / total
  }

  /** The part of a baseline that the factor leaves. */
  function Portion(baseline: real, factor: real): real {
    baseline * factor
  }

  /** The count before the minimum of one is applied: the same share of every baseline. */
  function Share(baseline: real, factor: real): int {
    Portion(baseline, factor).Floor
  }

  function Scaled(baseline: real, factor: real): int {
    Max(1, Share(baseline, factor))
  }

  function ResolvedStage(stage: Stage, system: System, threshold: real, factor: real): Stage {
    if stage.replicas.Computed?
    then stage.(replicas := Fixed(Scaled(DemandOf(stage, system, threshold).baseline, factor)))
    else stage
  }

  function Resolved(stages: seq<Stage>, system: System, threshold: real, factor: real): seq<Stage> {
    seq(|stages|, i requires 0 <= i < |stages| => ResolvedStage(stages[i], system, threshold, factor))
  }

  // --- resolve_static_replicas -------------------------------------------------------------------------------

  datatype Outcome = Untouched | DividedByZero | Resolution(stages: seq<Stage>)

  /** An entry of non_static_stages; the stage is known by its place. */
  datatype Info = Info(index: nat, baseline: real, memory: nat)

  ghost predicate InfosUpTo(infos: seq<Info>, stages: seq<Stage>, n: nat, system: System, threshold: real)
    requires n <= |stages|
  {
    && (forall k :: 0 <= k < |infos| ==>
          && infos[k].index < n && stages[infos[k].index].replicas.Computed?
          && Demand(infos[k].baseline, infos[k].memory) == DemandOf(stages[infos[k].index], system, threshold))
    && forall i: nat :: i < n && stages[i].replicas.Computed? ==> Mentions(infos, i)
  }

  ghost predicate Mentions(infos: seq<Info>, i: nat) {
    exists k :: 0 <= k < |infos| && infos[k].index == i
  }

  lemma MentionsAppend(infos: seq<Info>, info: Info, i: nat)
    ensures Mentions(infos + [info], i) <==> Mentions(infos, i) || info.index == i
  {
    var more := infos + [info];
    assert more[|infos|] == info;
    assert forall k :: 0 <= k < |infos| ==> more[k] == infos[k];
  }

  lemma NoDemands(system: System, threshold: real)
    ensures Demands([], system, threshold) == [] && TotalDemand([]) == 0.0
  {
  }

  lemma OneMoreDemand(stages: seq<Stage>, stage: Stage, system: System, threshold: real)
    ensures var before, after := Demands(stages, system, threshold), Demands(stages + [stage], system, threshold);
            if stage.replicas.Computed? then
              var d := DemandOf(stage, system, threshold);
              after == before + [d] && TotalDemand(after) == TotalDemand(before) + Cost(d.baseline, d.memory)
            else after == before
  {
    var before := Demands(stages, system, threshold);
    assert (stages + [stage])[..|stages|] == stages;
    if stage.replicas.Computed? {
      assert (before + [DemandOf(stage, system, threshold)])[..|before|] == before;
    }
  }

  /** The first loop. */
  method CollectDemands(stages: seq<Stage>, system: System, threshold: real) returns (infos: seq<Info>, total: real)
    ensures InfosUpTo(infos, stages, |stages|, system, threshold)
    ensures total == TotalDemand(Demands(stages, system, threshold))
    ensures (infos == [] <==> Demands(stages, system, threshold) == [])
  {
    hide Mentions, Baseline, Demands, TotalDemand;
    NoDemands(system, threshold);
    infos, total := [], 0.0;
    for n := 0 to |stages|
      invariant InfosUpTo(infos, stages, n, system, threshold)
      invariant total == TotalDemand(Demands(stages[..n], system, threshold))
      invariant infos == [] <==> Demands(stages[..n], system, threshold) == []
    {
      OneMoreDemand(stages[..n], stages[n], system, threshold);
      assert stages[..n + 1] == stages[..n] + [stages[n]];
      if stages[n].replicas.Computed? {
        var config := stages[n].replicas.config;
        var baseline := Baseline(config, system, threshold);
        var memory := if config.memoryPerReplica.Some? then config.memoryPerReplica.value else 0;
        forall i: nat { MentionsAppend(infos, Info(n, baseline, memory), i); }
        infos := infos + [Info(n, baseline, memory)];
        total := total + Cost(baseline, memory);
      }
    }
    assert stages[..|stages|] == stages;
  }

  lemma MemoryNotNegative(system: System, threshold: real)
    requires system.totalMemory >= 0.0 && threshold >= 0.0
    ensures AvailableMemory(system, threshold) >= 0
  {
  }

  /** resolve_static_replicas */
  method ResolveStaticReplicas(stages: seq<Stage>, disableDynamicScaling: bool, system: System, threshold: real)
    returns (r: Outcome)
    requires system.totalMemory >= 0.0 && threshold >= 0.0
    ensures r.Untouched? <==> !disableDynamicScaling
    ensures var demands := Demands(stages, system, threshold);
            var available: nat := AvailableMemory(system, threshold);
            && (r.DividedByZero? <==>
                 disableDynamicScaling && demands != []
                 && (system.totalMemory == 0.0 || (available == 0 && TotalDemand(demands) > 0.0)))
            && (r.Resolution? ==> r.stages == Resolved(stages, system, threshold,
                                                       Factor(available, TotalDemand(demands))))
            && (r.Resolution? && ValidStages(stages) ==>
                  AllCounted(stages, r.stages, system, threshold, TotalDemand(demands)))
  {
    hide Demands, TotalDemand, InfosUpTo, Baseline, Scaled, AvailableMemory, AllCounted, ValidConfig;
    MemoryNotNegative(system, threshold);
    CountsOfResolved(stages, system, threshold);
    if !disableDynamicScaling { return Untouched; }
    var available: nat := AvailableMemory(system, threshold);
    var infos, total := CollectDemands(stages, system, threshold);
    if infos == [] {
      NothingToResolve(stages, system, threshold, Factor(available, total));
      return Resolution(stages);
    }
    if total > available as real && available == 0 { return DividedByZero; }
    var factor := if total <= available as real then 1.0 else available as real / total;
    var resolved := ApplyCounts(stages, infos, factor, system, threshold);
    if system.totalMemory == 0.0 { return DividedByZero; }
    return Resolution(resolved);
  }

  /** The count that a stage is to get: what it wants, or the same share of it as all get, but at least one. */
  ghost predicate Counted(stage: Stage, resolved: Stage, system: System, threshold: real, total: real) {
    if !stage.replicas.Computed? then resolved == stage
    else
      && resolved.name == stage.name && resolved.replicas.Fixed?
      && exists b, budget :: Wanted(stage.replicas.config, system, threshold, b) && IsBudget(budget, system, threshold)
                             && GetsShare(b, resolved.replicas.count, budget, total)
  }

  /** The budget is the whole part of the share of the memory. */
  ghost predicate IsBudget(budget: int, system: System, threshold: real) {
    budget as real <= system.totalMemory * threshold < budget as real + 1.0
  }

  /** The count is the whole part of the baseline's share, or one. */
  ghost predicate GetsShare(b: real, count: int, budget: int, total: real) {
    if total <= budget as real then WholeOrOne(b, count)
    else total != 0.0 && WholeOrOne(Portion(b, budget as real / total), count)
  }

  ghost predicate WholeOrOne(b: real, count: int) {
    count >= 1 && (count == 1 || count as real <= b) && count as real + 1.0 > b
  }

  ghost predicate AllCounted(stages: seq<Stage>, resolved: seq<Stage>, system: System, threshold: real, total: real) {
    && |resolved| == |stages|
    && forall i :: 0 <= i < |stages| ==> Counted(stages[i], resolved[i], system, threshold, total)
  }

  lemma CountsOfResolved(stages: seq<Stage>, system: System, threshold: real)
    requires system.totalMemory >= 0.0 && threshold >= 0.0
    ensures var total := TotalDemand(Demands(stages, system, threshold));
            var available: nat := AvailableMemory(system, threshold);
            var resolved := Resolved(stages, system, threshold, Factor(available, total));
            ValidStages(stages) ==> AllCounted(stages, resolved, system, threshold, total)
  {
    hide Demands, TotalDemand, Counted, ValidConfig, Factor;
    MemoryNotNegative(system, threshold);
    var total := TotalDemand(Demands(stages, system, threshold));
    var available: nat := AvailableMemory(system, threshold);
    var resolved := Resolved(stages, system, threshold, Factor(available, total));
    if ValidStages(stages) {
      forall i | 0 <= i < |stages|
        ensures Counted(stages[i], resolved[i], system, threshold, total)
      {
        StageCounted(stages[i], system, threshold, total);
      }
    }
  }

  lemma StageCounted(stage: Stage, system: System, threshold: real, total: real)
    requires system.totalMemory >= 0.0 && threshold >= 0.0
    requires stage.replicas.Computed? ==> ValidConfig(stage.replicas.config)
    ensures AvailableMemory(system, threshold) >= 0
    ensures Counted(stage, ResolvedStage(stage, system, threshold, Factor(AvailableMemory(system, threshold), total)),
                    system, threshold, total)
  {
    hide Wanted, Baseline, GetsShare, AvailableMemory, Scaled, Factor, IsBudget;
    MemoryNotNegative(system, threshold);
    if stage.replicas.Computed? {
      var config := stage.replicas.config;
      BaselineIsWanted(config, system, threshold);
      BudgetIs(system, threshold);
      ScaledGetsShare(Baseline(config, system, threshold), AvailableMemory(system, threshold), total);
    }
  }

  lemma ScaledGetsShare(b: real, available: nat, total: real)
    ensures GetsShare(b, Scaled(b, Factor(available, total)), available, total)
  {
    hide Portion, WholeOrOne, Scaled;
    ScaledRoundsDown(b, Factor(available, total));
    PortionIs(b);
  }

  lemma BudgetIs(system: System, threshold: real)
    ensures IsBudget(AvailableMemory(system, threshold), system, threshold)
  {
  }

  lemma PortionIs(b: real)
    ensures Portion(b, 1.0) == b
  {
  }

  lemma ScaledRoundsDown(b: real, factor: real)
    ensures WholeOrOne(Portion(b, factor), Scaled(b, factor))
  {
    hide Portion;
  }

  lemma {:induction false} NothingToResolve(stages: seq<Stage>, system: System, threshold: real, factor: real)
    requires Demands(stages, system, threshold) == []
    ensures Resolved(stages, system, threshold, factor) == stages
  {
    if stages != [] {
      var n := |stages| - 1;
      NothingToResolve(stages[..n], system, threshold, factor);
      assert ResolvedStage(stages[n], system, threshold, factor) == stages[n];
      var s := Resolved(stages, system, threshold, factor);
      assert s[..n] == Resolved(stages[..n], system, threshold, factor);
    }
  }

  /** The second loop: each stage with a strategy gets its scaled count. */
  method ApplyCounts(stages: seq<Stage>, infos: seq<Info>, factor: real, ghost system: System, ghost threshold: real)
    returns (resolved: seq<Stage>)
    requires InfosUpTo(infos, stages, |stages|, system, threshold)
    ensures resolved == Resolved(stages, system, threshold, factor)
  {
    hide Mentions, Baseline, Scaled;
    resolved := stages;
    assert infos[..0] == [];
    MentionsNone();
    for k := 0 to |infos|
      invariant |resolved| == |stages|
      invariant forall i: nat :: i < |stages| ==>
        resolved[i] == if Mentions(infos[..k], i) then ResolvedStage(stages[i], system, threshold, factor)
                       else stages[i]
    {
      var info := infos[k];
      assert infos[..k + 1] == infos[..k] + [info];
      forall i: nat { MentionsAppend(infos[..k], info, i); }
      var scaled := Scaled(info.baseline, factor);
      resolved := resolved[info.index := resolved[info.index].(replicas := Fixed(scaled))];
    }
    assert infos[..|infos|] == infos;
  }

  lemma MentionsNone()
    ensures forall i: nat :: !Mentions([], i)
  {
  }

  // --- the budget ---------------------------------------------------------------------------------------------

  /** What whole replicas take. */
  function Taken(count: int, memory: nat): (r: int)
    ensures count >= 0 ==> r >= 0
  {
    count * memory
  }

  /** The memory the shares would take without the minimum of one. */
  function ShareMemory(demands: seq<Demand>, factor: real): int {
    if demands == [] then 0
    else
      var last := demands[|demands| - 1];
      ShareMemory(demands[..|demands| - 1], factor) + Taken(Share(last.baseline, factor), last.memory)
  }

  /** The memory of the resolved counts. */
  function ResolvedMemory(demands: seq<Demand>, factor: real): int {
    if demands == [] then 0
    else
      var last := demands[|demands| - 1];
      ResolvedMemory(demands[..|demands| - 1], factor) + Taken(Scaled(last.baseline, factor), last.memory)
  }

  /** The memory that the minimum of one adds to the shares. */
  function RaisedMemory(demands: seq<Demand>, factor: real): nat {
    if demands == [] then 0
    else
      var last := demands[|demands| - 1];
      RaisedMemory(demands[..|demands| - 1], factor)
      + Taken(Scaled(last.baseline, factor) - Share(last.baseline, factor), last.memory)
  }

  /** One replica each for the stages whose share is less than one. */
  function RaisedStages(demands: seq<Demand>, factor: real): nat {
    if demands == [] then 0
    else
      var last := demands[|demands| - 1];
      RaisedStages(demands[..|demands| - 1], factor) + if Share(last.baseline, factor) < 1 then last.memory else 0
  }

  /** One replica of every stage. */
  function OneEach(demands: seq<Demand>): nat {
    if demands == [] then 0 else OneEach(demands[..|demands| - 1]) + demands[|demands| - 1].memory
  }

  /** The demand times the factor, stage by stage. */
  function Granted(demands: seq<Demand>, factor: real): real {
    if demands == [] then 0.0
    else
      var last := demands[|demands| - 1];
      Granted(demands[..|demands| - 1], factor) + Cost(Portion(last.baseline, factor), last.memory)
  }

  /** What raising stages to one replica adds to what they are granted. */
  function Raising(demands: seq<Demand>, factor: real): real {
    if demands == [] then 0.0
    else
      var last := demands[|demands| - 1];
      Raising(demands[..|demands| - 1], factor)
      + if Share(last.baseline, factor) < 1 then Cost(1.0 - Portion(last.baseline, factor), last.memory) else 0.0
  }

  /** What rounding down saves on the other stages. */
  function Saving(demands: seq<Demand>, factor: real): real {
    if demands == [] then 0.0
    else
      var last := demands[|demands| - 1];
      Saving(demands[..|demands| - 1], factor)
      + if Share(last.baseline, factor) < 1 then 0.0
        else Cost(Portion(last.baseline, factor) - Share(last.baseline, factor) as real, last.memory)
  }

  ghost predicate Positive(demands: seq<Demand>) {
    forall i :: 0 <= i < |demands| ==> demands[i].baseline > 0.0
  }

  lemma CostMonotone(x: real, y: real, m: nat)
    requires x <= y
    ensures Cost(x, m) <= Cost(y, m)
  {
  }

  lemma CostAdds(x: real, y: real, m: nat)
    ensures Cost(x + y, m) == Cost(x, m) + Cost(y, m)
  {
  }

  lemma CostScales(x: real, factor: real, m: nat)
    ensures Cost(Portion(x, factor), m) == Cost(x, m) * factor
  {
    var y := m as real;
    assert (x * factor) * y == (x * y) * factor;
  }

  lemma CostOf(count: int, m: nat)
    ensures Cost(count as real, m) == Taken(count, m) as real && Cost(1.0, m) == m as real
  {
  }

  lemma Distribute(x: real, y: real, t: real)
    ensures (x + y) * t == x * t + y * t
  {
  }

  /** The factor spreads over the stages. */
  lemma {:induction false} GrantedIsFactor(demands: seq<Demand>, factor: real)
    ensures Granted(demands, factor) == TotalDemand(demands) * factor
  {
    if demands != [] {
      hide Cost;
      var last, rest := demands[|demands| - 1], demands[..|demands| - 1];
      GrantedIsFactor(rest, factor);
      CostScales(last.baseline, factor, last.memory);
      Distribute(TotalDemand(rest), Cost(last.baseline, last.memory), factor);
    }
  }

  lemma FactorCancels(available: real, total: real)
    requires total > available >= 0.0
    ensures total * (available / total) == available
  {
  }

  /** What is granted is the demand, or the whole budget when the demand exceeds it. */
  lemma GrantedIsBudget(demands: seq<Demand>, available: nat)
    ensures var total := TotalDemand(demands);
            Granted(demands, Factor(available, total))
            == if total <= available as real then total else available as real
  {
    hide Granted, TotalDemand;
    var total := TotalDemand(demands);
    GrantedIsFactor(demands, Factor(available, total));
    if total > available as real { FactorCancels(available as real, total); }
  }

  /** A share is what is granted, less at most one replica. */
  lemma ShareCost(b: real, factor: real, m: nat)
    ensures var s := Taken(Share(b, factor), m) as real; s <= Cost(Portion(b, factor), m) <= s + m as real
  {
    hide Cost, Taken, Portion;
    var s, g := Share(b, factor), Portion(b, factor);
    CostOf(s, m);
    CostMonotone(s as real, g, m);
    CostMonotone(g, s as real + 1.0, m);
    CostAdds(s as real, 1.0, m);
  }

  lemma {:induction false} ShareBounds(demands: seq<Demand>, factor: real)
    ensures var memory := ShareMemory(demands, factor) as real;
            memory <= Granted(demands, factor) <= memory + OneEach(demands) as real
  {
    if demands != [] {
      hide Share, Cost, Taken, Portion;
      var last := demands[|demands| - 1];
      ShareBounds(demands[..|demands| - 1], factor);
      ShareCost(last.baseline, factor, last.memory);
    }
  }

  lemma MemoryTimes(count: int, m: nat)
    requires count >= 1
    ensures Taken(count, m) >= m
  {
  }

  lemma TakenAdds(x: int, y: int, m: nat)
    ensures Taken(x + y, m) == Taken(x, m) + Taken(y, m)
  {
  }

  /**
   The resolved counts take the memory of the shares and of what is raised, and at least one replica of each stage.
   */
  lemma {:induction false} ResolvedIsSharePlusRaised(demands: seq<Demand>, factor: real)
    ensures ResolvedMemory(demands, factor) == ShareMemory(demands, factor) + RaisedMemory(demands, factor)
    ensures OneEach(demands) <= ResolvedMemory(demands, factor)
  {
    if demands != [] {
      hide Taken, Portion;
      var last := demands[|demands| - 1];
      var s, t := Scaled(last.baseline, factor), Share(last.baseline, factor);
      ResolvedIsSharePlusRaised(demands[..|demands| - 1], factor);
      MemoryTimes(s, last.memory);
      TakenAdds(t, s - t, last.memory);
    }
  }

  /** With positive baselines exactly one replica each is raised. */
  lemma {:induction false} RaisedToOne(demands: seq<Demand>, factor: real)
    requires Positive(demands) && factor >= 0.0
    ensures RaisedMemory(demands, factor) == RaisedStages(demands, factor)
  {
    if demands != [] {
      var last := demands[|demands| - 1];
      RaisedToOne(demands[..|demands| - 1], factor);
      ShareNotNegative(last.baseline, factor);
    }
  }

  lemma ShareNotNegative(b: real, factor: real)
    requires b >= 0.0 && factor >= 0.0
    ensures Share(b, factor) >= 0
  {
  }

  lemma FactorBounds(available: nat, total: real)
    ensures 0.0 <= Factor(available, total) <= 1.0
  {
    if total > available as real {
      var factor := available as real / total;
      FactorCancels(available as real, total);
      if factor > 1.0 { TimesLess(1.0, factor, total); }
    }
  }

  lemma TimesLess(x: real, y: real, t: real)
    requires x < y && t > 0.0
    ensures x * t < y * t && t * x < t * y
  {
  }

  /** Never more than the baseline, never less than one. */
  lemma ScaledBounds(b: real, available: nat, total: real)
    requires b >= 1.0
    ensures 1 <= Scaled(b, Factor(available, total)) && Scaled(b, Factor(available, total)) as real <= b
  {
    var factor := Factor(available, total);
    FactorBounds(available, total);
    if factor < 1.0 { TimesLess(factor, 1.0, b); }
  }

  /** A stage with the larger baseline never gets fewer replicas. */
  lemma ScaledMonotone(b: real, b': real, available: nat, total: real)
    requires b <= b'
    ensures Scaled(b, Factor(available, total)) <= Scaled(b', Factor(available, total))
  {
    var factor := Factor(available, total);
    FactorBounds(available, total);
    if b < b' && factor > 0.0 { TimesLess(b, b', factor); }
  }

  /**
   The shares never exceed the budget, nor the demand, and leave less than one replica of each stage unused; the counts
   exceed the budget by at most what the minimum of one adds, and not at all when it adds nothing.
   */
  lemma BudgetBounds(demands: seq<Demand>, available: nat)
    ensures var total := TotalDemand(demands);
            var factor := Factor(available, total);
            var granted := if total <= available as real then total else available as real;
            && granted - OneEach(demands) as real <= ShareMemory(demands, factor) as real <= granted
            && ResolvedMemory(demands, factor) as real <= granted + RaisedMemory(demands, factor) as real
            && ResolvedMemory(demands, factor) <= available + RaisedMemory(demands, factor)
            && (Positive(demands) ==> RaisedMemory(demands, factor) == RaisedStages(demands, factor))
  {
    hide ShareMemory, ResolvedMemory, RaisedMemory, RaisedStages, OneEach, Positive, Granted, Factor, TotalDemand;
    var total := TotalDemand(demands);
    var factor := Factor(available, total);
    GrantedIsBudget(demands, available);
    ShareBounds(demands, factor);
    ResolvedIsSharePlusRaised(demands, factor);
    FactorBounds(available, total);
    if Positive(demands) { RaisedToOne(demands, factor); }
  }

  /**
   Within the budget nothing is scaled: counts are the whole parts of the baselines, and take no more than the demand.
   */
  lemma {:induction false} WithinBudget(demands: seq<Demand>)
    requires forall i :: 0 <= i < |demands| ==> demands[i].baseline >= 1.0
    ensures forall i :: 0 <= i < |demands| ==> Scaled(demands[i].baseline, 1.0) == demands[i].baseline.Floor
    ensures RaisedMemory(demands, 1.0) == 0 && ResolvedMemory(demands, 1.0) as real <= TotalDemand(demands)
  {
    if demands != [] {
      hide Cost;
      var last := demands[|demands| - 1];
      WithinBudget(demands[..|demands| - 1]);
      assert Share(last.baseline, 1.0) == last.baseline.Floor >= 1;
      ShareCost(last.baseline, 1.0, last.memory);
    }
  }

  lemma {:induction false} ResolvedIsBalance(demands: seq<Demand>, factor: real)
    ensures ResolvedMemory(demands, factor) as real
         == Granted(demands, factor) + Raising(demands, factor) - Saving(demands, factor)
  {
    if demands != [] {
      hide Cost, Taken, Portion;
      var last := demands[|demands| - 1];
      var b, s, m := Portion(last.baseline, factor), Scaled(last.baseline, factor), last.memory;
      ResolvedIsBalance(demands[..|demands| - 1], factor);
      CostOf(s, m);
      CostAdds(b, s as real - b, m);
      CostAdds(s as real, b - s as real, m);
    }
  }

  /**
   A budget smaller than one replica of every stage cannot be kept. It is kept exactly when what raising stages to one
   replica adds is at most what rounding down saves on the others, and what the demand leaves of the budget.
   */
  lemma BudgetKeptExactly(demands: seq<Demand>, available: nat)
    ensures var total := TotalDemand(demands);
            var factor := Factor(available, total);
            && (OneEach(demands) > available ==> ResolvedMemory(demands, factor) > available)
            && (ResolvedMemory(demands, factor) <= available
                <==> Raising(demands, factor)
                     <= Saving(demands, factor) + if total <= available as real then available as real - total else 0.0)
  {
    hide ResolvedMemory, OneEach, Granted, Raising, Saving, Factor, TotalDemand;
    var factor := Factor(available, TotalDemand(demands));
    GrantedIsBudget(demands, available);
    ResolvedIsSharePlusRaised(demands, factor);
    ResolvedIsBalance(demands, factor);
  }

  // --- what the resolved stages take ----------------------------------------------------------------------------

  /** The memory of the stages that had a strategy, at the counts they have now. */
  function Allocated(stages: seq<Stage>, resolved: seq<Stage>): int
    requires |stages| == |resolved|
  {
    if stages == [] then 0
    else
      var n := |stages| - 1;
      var (stage, count) := (stages[n], resolved[n].replicas);
      Allocated(stages[..n], resolved[..n])
      + if stage.replicas.Computed? && count.Fixed? then Taken(count.count, MemoryOf(stage.replicas.config)) else 0
  }

  lemma {:induction false} AllocatedIsResolved(stages: seq<Stage>, system: System, threshold: real, factor: real)
    ensures Allocated(stages, Resolved(stages, system, threshold, factor))
        == ResolvedMemory(Demands(stages, system, threshold), factor)
  {
    if stages != [] {
      hide Scaled, Baseline, Taken;
      var n := |stages| - 1;
      var before := Demands(stages[..n], system, threshold);
      AllocatedIsResolved(stages[..n], system, threshold, factor);
      assert Resolved(stages, system, threshold, factor)[..n] == Resolved(stages[..n], system, threshold, factor);
      assert Resolved(stages, system, threshold, factor)[n] == ResolvedStage(stages[n], system, threshold, factor);
      if stages[n].replicas.Computed? {
        var d := DemandOf(stages[n], system, threshold);
        assert Demands(stages, system, threshold) == before + [d] && (before + [d])[..|before|] == before;
      } else {
        assert Demands(stages, system, threshold) == before;
      }
    }
  }

  /**
   The stages that are returned keep the budget, but for what the minimum of one adds; and exactly when that is saved.
   */
  lemma ResolvedStagesKeepBudget(stages: seq<Stage>, system: System, threshold: real)
    requires system.totalMemory >= 0.0 && threshold >= 0.0
    ensures var demands := Demands(stages, system, threshold);
            var available: nat := AvailableMemory(system, threshold);
            var total := TotalDemand(demands);
            var factor := Factor(available, total);
            var memory := Allocated(stages, Resolved(stages, system, threshold, factor));
            && OneEach(demands) <= memory <= available + RaisedMemory(demands, factor)
            && (memory <= available
                <==> Raising(demands, factor)
                     <= Saving(demands, factor) + if total <= available as real then available as real - total else 0.0)
  {
    hide Demands, Allocated, Resolved, AvailableMemory, TotalDemand, ResolvedMemory, RaisedMemory, OneEach, Raising,
         Saving;
    MemoryNotNegative(system, threshold);
    var demands := Demands(stages, system, threshold);
    var available: nat := AvailableMemory(system, threshold);
    var factor := Factor(available, TotalDemand(demands));
    AllocatedIsResolved(stages, system, threshold, factor);
    BudgetBounds(demands, available);
    BudgetKeptExactly(demands, available);
    ResolvedIsSharePlusRaised(demands, factor);
  }

  /**
   The budget can be exceeded although one replica of each stage fits: 19 replicas of 1 MB and one of 10 MB in 20 MB.
   */
  lemma MinimumCanExceedBudget()
    ensures var demands := [Demand(19.0, 1), Demand(1.0, 10)];
            OneEach(demands) == 11 && ResolvedMemory(demands, Factor(20, TotalDemand(demands))) == 23
  {
    var a, b := Demand(19.0, 1), Demand(1.0, 10);
    var demands := [a, b];
    var factor := Factor(20, 29.0);
    assert demands[..1] == [a] && [a][..0] == [];
    assert TotalDemand([a]) == 19.0 && TotalDemand(demands) == 29.0;
    assert factor == 20.0 / 29.0;
    assert Share(19.0, factor) == 13 && Share(1.0, factor) == 0;
    assert ResolvedMemory([a], factor) == 13;
    assert OneEach([a]) == 1;
  }
}
