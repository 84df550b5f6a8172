/** The default set of agents for the configured providers. */
module DefaultAgents {
  import opened Outcomes
  import opened Text
  import opened Models

  datatype Role = ManagerRole | WorkerRole | CodingRole | CheapRole | ReasoningRole

  /** The parts of an agent that depend on the providers. */
  datatype AgentSpec = AgentSpec(id: string, kind: string, provider: string, model: string, costMagnitude: int,
      contextWindow: int)

  /** A panic is the run-time error of indexing an empty list. */
  datatype Failure = NoProviders | Panic

  /** Some capability's lower-case text contains the given one. `lower` is the lower-casing of texts. */
  predicate HasCapability(lower: string -> string, model: ModelInfo, capability: string)
    requires capability != ""
  {
    exists c | c in model.capabilities :: Contains(lower(c), capability)
  }

  predicate Qualifies(lower: string -> string, m: Selection, role: Role) {
    match role
    case ManagerRole => HasCapability(lower, m.model, "reasoning") && m.model.contextWindow >= 32000
    case WorkerRole => m.costEffective && HasCapability(lower, m.model, "coding")
    case CodingRole => HasCapability(lower, m.model, "coding")
    case CheapRole => true
    case ReasoningRole => HasCapability(lower, m.model, "reasoning") || HasCapability(lower, m.model, "analysis")
  }

  predicate BetterForRole(a: Selection, b: Selection, role: Role) {
    match role
    case ManagerRole => a.model.contextWindow > b.model.contextWindow || (a.model.recommended && !b.model.recommended)
    case WorkerRole => a.model.costMagnitude < b.model.costMagnitude || (a.model.recommended && !b.model.recommended)
    case CodingRole => false
    case CheapRole => a.model.costMagnitude < b.model.costMagnitude
    case ReasoningRole => (a.model.recommended && !b.model.recommended) || a.model.contextWindow > b.model.contextWindow
  }

  function Qualified(lower: string -> string, models: seq<Selection>, role: Role): (r: seq<Selection>)
    ensures forall m | m in r :: m in models
  {
    if models == [] then []
    else
      var front := Qualified(lower, models[..|models| - 1], role);
      if Qualifies(lower, models[|models| - 1], role) then front + [models[|models| - 1]] else front
  }

  /** The one left after going through the candidates once. */
  function Winner(candidates: seq<Selection>, role: Role): (r: Selection)
    requires candidates != []
    ensures r in candidates
  {
    var n := |candidates| - 1;
    if n == 0 then candidates[0]
    else
      var before := Winner(candidates[..n], role);
      if BetterForRole(candidates[n], before, role) then candidates[n] else before
  }

  /** The candidates for a role; with none, every model is one. */
  function Candidates(lower: string -> string, models: seq<Selection>, role: Role): (r: seq<Selection>)
    ensures models != [] ==> r != [] && forall m | m in r :: m in models
  {
    if Qualified(lower, models, role) == [] then models else Qualified(lower, models, role)
  }

  lemma QualifiedStep(lower: string -> string, models: seq<Selection>, role: Role, i: nat)
    requires i < |models|
    ensures Qualified(lower, [], role) == []
    ensures var front := Qualified(lower, models[..i], role);
            Qualified(lower, models[..i + 1], role) == if Qualifies(lower, models[i], role) then front + [models[i]]
                else front
  {
    assert models[..i + 1][..i] == models[..i];
  }

  lemma WinnerStep(candidates: seq<Selection>, role: Role, i: nat)
    requires i < |candidates|
    ensures Winner(candidates[..i + 1], role) ==
              if i == 0 then candidates[0]
              else if BetterForRole(candidates[i], Winner(candidates[..i], role), role) then candidates[i]
              else Winner(candidates[..i], role)
  {
    assert candidates[..i + 1][..i] == candidates[..i];
  }

  method FindBestModel(lower: string -> string, models: seq<Selection>, role: Role) returns (best: Selection)
    ensures best == if models == [] then NOTHING else Winner(Candidates(lower, models, role), role)
  {
    hide Qualifies, BetterForRole, Qualified, Winner;
    if |models| == 0 {
      return NOTHING;
    }
    var candidates: seq<Selection> := [];
    QualifiedStep(lower, models, role, 0);
    assert models[..0] == [];
    var i := 0;
    while i < |models|
      invariant 0 <= i <= |models|
      invariant candidates == Qualified(lower, models[..i], role)
    {
      QualifiedStep(lower, models, role, i);
      if Qualifies(lower, models[i], role) {
        candidates := candidates + [models[i]];
      }
      i := i + 1;
    }
    assert models[..i] == models;
    if |candidates| == 0 {
      candidates := models;
    }
    best := candidates[0];
    WinnerStep(candidates, role, 0);
    i := 1;
    while i < |candidates|
      invariant 1 <= i <= |candidates| && best == Winner(candidates[..i], role)
    {
      WinnerStep(candidates, role, i);
      if BetterForRole(candidates[i], best, role) {
        best := candidates[i];
      }
      i := i + 1;
    }
    assert candidates[..i] == candidates;
  }

  lemma {:induction false} QualifiedMembers(lower: string -> string, models: seq<Selection>, role: Role, m: Selection)
    ensures m in Qualified(lower, models, role) <==> m in models && Qualifies(lower, m, role)
  {
    hide Qualifies;
    if models != [] {
      QualifiedMembers(lower, models[..|models| - 1], role, m);
      assert models == models[..|models| - 1] + [models[|models| - 1]];
    }
  }

  /** A role is filled by a configured model, and by a qualified one whenever there is any. */
  lemma BestIsQualified(lower: string -> string, models: seq<Selection>, role: Role)
    requires models != []
    ensures var best := Winner(Candidates(lower, models, role), role);
            best in models && (Qualifies(lower, best, role) <==> exists m | m in models :: Qualifies(lower, m, role))
  {
    hide Qualifies, Winner;
    var qualified := Qualified(lower, models, role);
    QualifiedMembers(lower, models, role, Winner(Candidates(lower, models, role), role));
    if m :| m in models && Qualifies(lower, m, role) {
      QualifiedMembers(lower, models, role, m);
    }
  }

  lemma {:induction false} AllQualifyAsCheap(lower: string -> string, models: seq<Selection>)
    ensures Qualified(lower, models, CheapRole) == models
  {
    if models != [] {
      AllQualifyAsCheap(lower, models[..|models| - 1]);
      assert models == models[..|models| - 1] + [models[|models| - 1]];
    }
  }

  lemma {:induction false} CheapestIsLeftmostMinimum(models: seq<Selection>) returns (k: nat)
    requires models != []
    ensures k < |models| && Winner(models, CheapRole) == models[k]
    ensures forall i | 0 <= i < |models| :: models[k].model.costMagnitude <= models[i].model.costMagnitude
    ensures forall i | 0 <= i < k :: models[k].model.costMagnitude < models[i].model.costMagnitude
  {
    hide Winner;
    var n := |models| - 1;
    k := 0;
    WinnerStep(models, CheapRole, n);
    assert models[..n + 1] == models;
    if n > 0 {
      k := CheapestIsLeftmostMinimum(models[..n]);
      assert forall i | 0 <= i < n :: models[..n][i] == models[i];
      if models[n].model.costMagnitude < models[k].model.costMagnitude {
        k := n;
      }
    }
  }

  /** The cheap choice is the leftmost model of least cost. */
  lemma CheapChoice(lower: string -> string, models: seq<Selection>) returns (k: nat)
    requires models != []
    ensures k < |models| && Winner(Candidates(lower, models, CheapRole), CheapRole) == models[k]
    ensures forall i | 0 <= i < |models| :: models[k].model.costMagnitude <= models[i].model.costMagnitude
    ensures forall i | 0 <= i < k :: models[k].model.costMagnitude < models[i].model.costMagnitude
  {
    AllQualifyAsCheap(lower, models);
    k := CheapestIsLeftmostMinimum(models);
  }

  /** What the manager, the worker and the reasoning specialist value besides a recommendation. */
  function MeritFor(role: Role): Merit {
    if role.WorkerRole? then LowCost else LargeWindow
  }

  lemma {:induction false} WinnerKeepsUnbeaten(role: Role, all: seq<Selection>, n: nat, k: nat)
    requires role in {ManagerRole, WorkerRole, ReasoningRole}
    requires k < n <= |all| && Unbeaten(MeritFor(role), all, all[k])
    ensures Unbeaten(MeritFor(role), all, Winner(all[..n], role))
  {
    hide Winner, Unbeaten, Beats;
    WinnerStep(all, role, n - 1);
    if n > 1 {
      var current, last := Winner(all[..n - 1], role), all[n - 1];
      assert current in all;
      BetterBeats(role, last, current);
      if k < n - 1 {
        WinnerKeepsUnbeaten(role, all, n - 1, k);
        assert Unbeaten(MeritFor(role), all, current);
        UnbeatenStays(MeritFor(role), all, current, last);
      } else {
        PassMeetsTop(MeritFor(role), all, last, current);
      }
    }
  }

  lemma BetterBeats(role: Role, a: Selection, b: Selection)
    requires role in {ManagerRole, WorkerRole, ReasoningRole}
    ensures BetterForRole(a, b, role) <==> Beats(MeritFor(role), a, b)
  {
  }

  /** The manager, the worker and the reasoning specialist get a candidate that none beats exactly when some
      candidate has the largest window (for the worker: the least cost) of all and is recommended, unless none is. */
  lemma UnbeatenWinnerExactly(role: Role, candidates: seq<Selection>)
    requires candidates != [] && role in {ManagerRole, WorkerRole, ReasoningRole}
    ensures (forall m | m in candidates :: !BetterForRole(m, Winner(candidates, role), role)) <==>
            exists u | u in candidates :: IsTop(MeritFor(role), candidates, u)
  {
    hide Winner, IsTop, Beats, BetterForRole;
    var winner := Winner(candidates, role);
    UnbeatenIsTop(MeritFor(role), candidates, winner);
    forall m | m in candidates ensures BetterForRole(m, winner, role) <==> Beats(MeritFor(role), m, winner) {
      BetterBeats(role, m, winner);
    }
    if u :| u in candidates && IsTop(MeritFor(role), candidates, u) {
      UnbeatenIsTop(MeritFor(role), candidates, u);
      var k :| 0 <= k < |candidates| && candidates[k] == u;
      WinnerKeepsUnbeaten(role, candidates, |candidates|, k);
      assert candidates[..|candidates|] == candidates;
    }
  }

  /** The coding specialist gets the first candidate. */
  lemma {:induction false} CodingChoice(candidates: seq<Selection>)
    requires candidates != []
    ensures Winner(candidates, CodingRole) == candidates[0]
  {
    if |candidates| > 1 {
      CodingChoice(candidates[..|candidates| - 1]);
    }
  }

  // ---------------------------------------------------------------- building the agents

  function Spec(id: string, kind: string, s: Selection): AgentSpec {
    AgentSpec(id, kind, s.provider, s.model.name, s.model.costMagnitude, s.model.contextWindow)
  }

  predicate SamePair(a: Selection, b: Selection) {
    a.provider == b.provider && a.model.name == b.model.name
  }

  datatype Analysis = Analysis(hasLocal: bool, bestManager: Selection, bestWorker: Selection, bestCoding: Selection,
                               bestCheap: Selection, bestReasoning: Selection, allModels: seq<Selection>)

  function BestFor(lower: string -> string, models: seq<Selection>, role: Role): Selection {
    if models == [] then NOTHING else Winner(Candidates(lower, models, role), role)
  }

  ghost predicate Analyzed(lower: string -> string, models: seq<Selection>, a: Analysis) {
    && a.allModels == models
    && (a.hasLocal <==> exists m | m in models :: m.model.costMagnitude == 0)
    && a.bestManager == BestFor(lower, models, ManagerRole) && a.bestWorker == BestFor(lower, models, WorkerRole)
    && a.bestCoding == BestFor(lower, models, CodingRole) && a.bestCheap == BestFor(lower, models, CheapRole)
    && a.bestReasoning == BestFor(lower, models, ReasoningRole)
  }

  method AnalyzeProviders(lower: string -> string, providers: seq<Provider>) returns (a: Analysis)
    ensures Analyzed(lower, AllModels(providers), a)
  {
    hide Winner, Candidates, Qualified;
    var all: seq<Selection> := [];
    var hasLocal := false;
    var i := 0;
    while i < |providers|
      invariant 0 <= i <= |providers| && all == AllModels(providers[..i])
      invariant hasLocal <==> exists m | m in all :: m.model.costMagnitude == 0
    {
      var provider := providers[i];
      ghost var before, own := all, SelectAll(provider.name, provider.models);
      assert before + own[..0] == before;
      var j := 0;
      while j < |provider.models|
        invariant 0 <= j <= |provider.models| && all == before + own[..j]
        invariant hasLocal <==> exists m | m in all :: m.model.costMagnitude == 0
      {
        var selection := Select(provider.name, provider.models[j]);
        assert before + own[..j] + [selection] == before + own[..j + 1];
        assert forall m :: m in all + [selection] <==> m in all || m == selection;
        all := all + [selection];
        if provider.models[j].costMagnitude == 0 {
          hasLocal := true;
        }
        j := j + 1;
      }
      assert own[..j] == own;
      assert providers[..i + 1][..i] == providers[..i];
      i := i + 1;
    }
    assert providers[..i] == providers;
    var manager := FindBestModel(lower, all, ManagerRole);
    var worker := FindBestModel(lower, all, WorkerRole);
    var coding := FindBestModel(lower, all, CodingRole);
    var cheap := FindBestModel(lower, all, CheapRole);
    var reasoning := FindBestModel(lower, all, ReasoningRole);
    a := Analysis(hasLocal, manager, worker, coding, cheap, reasoning, all);
  }

  function CreateManagerAgent(a: Analysis): Result<AgentSpec, Failure> {
    if a.bestManager.available then Ok(Spec("manager", "manager", a.bestManager))
    else if a.allModels == [] then Err(Panic)
    else Ok(Spec("manager", "manager", a.allModels[0]))
  }

  /** The model of the primary worker. */
  function Primary(a: Analysis): Selection
    requires a.allModels != []
  {
    if a.bestWorker.available then a.bestWorker else if a.bestCheap.available then a.bestCheap else a.allModels[0]
  }

  /** The second worker takes the second model, or the third when the second is the primary's. */
  function Workers(all: seq<Selection>, primary: Selection): seq<AgentSpec>
    requires all != []
  {
    [Spec("primary-artisan", "worker", primary)] +
      if |all| == 1 || (|all| == 2 && SamePair(all[1], primary)) then []
      else if SamePair(all[1], primary) then [Spec("secondary-artisan", "worker", all[2])]
      else [Spec("secondary-artisan", "worker", all[1])]
  }

  method CreateWorkerAgents(a: Analysis) returns (workers: seq<AgentSpec>)
    requires a.allModels != []
    ensures workers == Workers(a.allModels, Primary(a))
  {
    var primary := a.bestWorker;
    if !primary.available {
      primary := a.bestCheap;
    }
    if !primary.available {
      primary := a.allModels[0];
    }
    workers := [Spec("primary-artisan", "worker", primary)];
    if |a.allModels| > 1 {
      var secondary := a.allModels[1];
      if secondary.provider == primary.provider && secondary.model.name == primary.model.name {
        if |a.allModels| > 2 {
          secondary := a.allModels[2];
        } else {
          return;
        }
      }
      workers := workers + [Spec("secondary-artisan", "worker", secondary)];
    }
  }

  predicate HighQuality(m: Selection) {
    m.model.recommended || m.model.costMagnitude >= 3
  }

  /** What the three specialists are, when they are. */
  ghost predicate Specialists(a: Analysis, s: seq<AgentSpec>) {
    if !exists m | m in a.allModels :: HighQuality(m) then s == []
    else
      exists local: seq<AgentSpec> ::
        && s == (if a.bestCoding.available then [Spec("code-specialist", "specialist", a.bestCoding)] else [])
                + (if a.bestReasoning.available && a.bestReasoning.model.costMagnitude >= 2
                   then [Spec("analysis-specialist", "specialist", a.bestReasoning)] else [])
                + local
        && LocalSpecialist(a, local)
  }

  /** The first model that costs nothing, if one was seen. */
  ghost predicate LocalSpecialist(a: Analysis, local: seq<AgentSpec>) {
    || (local == [] && (!a.hasLocal || forall m | m in a.allModels :: m.model.costMagnitude != 0))
    || (a.hasLocal && exists k | 0 <= k < |a.allModels| ::
          && local == [Spec("local-artisan", "specialist", a.allModels[k])] && a.allModels[k].model.costMagnitude == 0
          && forall i | 0 <= i < k :: a.allModels[i].model.costMagnitude != 0)
  }

  method CreateLocalSpecialist(a: Analysis) returns (local: seq<AgentSpec>)
    ensures LocalSpecialist(a, local)
  {
    local := [];
    if a.hasLocal {
      var i := 0;
      while i < |a.allModels|
        invariant 0 <= i <= |a.allModels| && forall j | 0 <= j < i :: a.allModels[j].model.costMagnitude != 0
      {
        if a.allModels[i].model.costMagnitude == 0 {
          return [Spec("local-artisan", "specialist", a.allModels[i])];
        }
        i := i + 1;
      }
    }
  }

  method CreateSpecialistAgents(a: Analysis) returns (specialists: seq<AgentSpec>)
    ensures Specialists(a, specialists)
  {
    specialists := [];
    var highQualityModels: seq<Selection> := [];
    var i := 0;
    while i < |a.allModels|
      invariant 0 <= i <= |a.allModels|
      invariant highQualityModels != [] <==> exists j | 0 <= j < i :: HighQuality(a.allModels[j])
    {
      if HighQuality(a.allModels[i]) {
        highQualityModels := highQualityModels + [a.allModels[i]];
      }
      i := i + 1;
    }
    if |highQualityModels| == 0 {
      return;
    }
    if a.bestCoding.available {
      specialists := specialists + [Spec("code-specialist", "specialist", a.bestCoding)];
    }
    if a.bestReasoning.available && a.bestReasoning.model.costMagnitude >= 2 {
      specialists := specialists + [Spec("analysis-specialist", "specialist", a.bestReasoning)];
    }
    var local := CreateLocalSpecialist(a);
    specialists := specialists + local;
  }

  // ---------------------------------------------------------------- the whole set

  predicate SameAgentPair(a: AgentSpec, b: AgentSpec) {
    a.provider == b.provider && a.model == b.model
  }

  /** Unique IDs, the manager first and only once, configured models only. */
  ghost predicate WellFormed(agents: seq<AgentSpec>, providers: seq<Provider>) {
    && agents != [] && agents[0].kind == "manager" && (forall i | 1 <= i < |agents| :: agents[i].kind != "manager")
    && (forall i, j | 0 <= i < j < |agents| :: agents[i].id != agents[j].id)
    && (forall g | g in agents :: Configured(providers, g.provider, g.model))
  }

  /** Two workers would share a model: the primary's pair fills both places the secondary can come from. */
  predicate PrimaryRepeated(all: seq<Selection>, primary: Selection) {
    |all| > 2 && SamePair(all[1], primary) && SamePair(all[2], primary)
  }

  lemma BestIsAModel(lower: string -> string, models: seq<Selection>, role: Role)
    requires models != [] && forall m | m in models :: m.available
    ensures BestFor(lower, models, role) in models && BestFor(lower, models, role).available
  {
    hide Qualified, Winner, Candidates;
    BestIsQualified(lower, models, role);
  }

  lemma AnalysisUsesModels(lower: string -> string, providers: seq<Provider>, a: Analysis)
    requires AllModels(providers) != [] && Analyzed(lower, AllModels(providers), a)
    ensures forall m | m in a.allModels :: m.available && Configured(providers, m.provider, m.model.name)
    ensures forall m | m in {a.bestManager, a.bestWorker, a.bestCoding, a.bestReasoning} ::
        m in a.allModels && m.available
  {
    hide Configured, BestFor;
    forall m | m in a.allModels ensures m.available && Configured(providers, m.provider, m.model.name) {
      AllModelsMembers(providers, m);
      SelectedIsConfigured(providers, m);
    }
    BestIsAModel(lower, a.allModels, ManagerRole);
    BestIsAModel(lower, a.allModels, WorkerRole);
    BestIsAModel(lower, a.allModels, CodingRole);
    BestIsAModel(lower, a.allModels, ReasoningRole);
  }

  /** It fails without providers, panics when the providers offer no model, and otherwise yields a well-formed set in
      which two workers share a model exactly when the primary's pair is repeated at the second and third place. */
  method CreateDefaultAgents(lower: string -> string, providers: seq<Provider>)
      returns (result: Result<seq<AgentSpec>, Failure>, ghost a: Analysis)
    ensures result == Err(NoProviders) <==> providers == []
    ensures result == Err(Panic) <==> providers != [] && AllModels(providers) == []
    ensures Analyzed(lower, AllModels(providers), a)
    ensures result.Ok? ==>
              && WellFormed(result.value, providers)
              && (exists specialists :: Specialists(a, specialists) && result.value ==
                    [Spec("manager", "manager", BestFor(lower, AllModels(providers), ManagerRole))]
                    + Workers(AllModels(providers), BestFor(lower, AllModels(providers), WorkerRole)) + specialists)
              && ((exists i, j | 0 <= i < j < |result.value| ::
                  result.value[i].kind == "worker" && result.value[j].kind == "worker"
                     && SameAgentPair(result.value[i], result.value[j]))
                  <==> PrimaryRepeated(AllModels(providers), BestFor(lower, AllModels(providers), WorkerRole)))
  {
    hide Configured, BestFor, LocalSpecialist, Workers, Specialists;
    var analysis := AnalyzeProviders(lower, providers);
    a := analysis;
    if |providers| == 0 {
      return Err(NoProviders), a;
    }
    var manager := CreateManagerAgent(analysis);
    if analysis.allModels != [] {
      AnalysisUsesModels(lower, providers, analysis);
    } else {
      NothingIsUnavailable(lower);
    }
    if manager.Err? {
      return Err(manager.error), a;
    }
    var workers := CreateWorkerAgents(analysis);
    var specialists := CreateSpecialistAgents(analysis);
    var agents := [manager.value] + workers + specialists;
    SpecialistsFit(analysis, specialists, providers);
    SetIsWellFormed(analysis, manager.value, workers, specialists, providers);
    result := Ok(agents);
  }

  lemma NothingIsUnavailable(lower: string -> string)
    ensures forall role :: !BestFor(lower, [], role).available
  {
  }

  /** Specialists have their own IDs and kind, and configured models. */
  ghost predicate Fitting(s: seq<AgentSpec>, providers: seq<Provider>) {
    && (forall i | 0 <= i < |s| :: s[i].kind == "specialist" && Configured(providers, s[i].provider, s[i].model)
                                  && s[i].id in {"code-specialist", "analysis-specialist", "local-artisan"})
    && (forall i, j | 0 <= i < j < |s| :: s[i].id != s[j].id)
  }

  lemma SpecialistsFit(a: Analysis, s: seq<AgentSpec>, providers: seq<Provider>)
    requires Specialists(a, s) && a.bestCoding in a.allModels && a.bestReasoning in a.allModels
    requires forall m | m in a.allModels :: Configured(providers, m.provider, m.model.name)
    ensures Fitting(s, providers)
  {
    hide Configured;
  }

  lemma SetIsWellFormed(a: Analysis, manager: AgentSpec, workers: seq<AgentSpec>, s: seq<AgentSpec>,
      providers: seq<Provider>)
    requires a.allModels != [] && a.bestManager.available && a.bestWorker.available && a.bestManager in a.allModels &&
        a.bestWorker in a.allModels
    requires forall m | m in a.allModels :: Configured(providers, m.provider, m.model.name)
    requires manager == Spec("manager", "manager", a.bestManager) && Fitting(s, providers)
    requires workers == Workers(a.allModels, a.bestWorker)
    ensures var agents := [manager] + workers + s;
            && WellFormed(agents, providers)
            && ((exists i, j | 0 <= i < j < |agents| ::
                agents[i].kind == "worker" && agents[j].kind == "worker" && SameAgentPair(agents[i], agents[j]))
                <==> PrimaryRepeated(a.allModels, a.bestWorker))
  {
    hide Configured;
    var agents, n := [manager] + workers + s, 1 + |workers|;
    assert forall i | n <= i < |agents| :: agents[i] == s[i - n];
    assert agents[1] == workers[0];
    if |workers| == 2 {
      assert agents[2] == workers[1];
    }
  }

  /** When no two configured models have the same provider and name, two workers never share a model. */
  lemma DistinctPairsAreNotRepeated(lower: string -> string, models: seq<Selection>)
    requires models != [] && forall i, j | 0 <= i < j < |models| :: !SamePair(models[i], models[j])
    ensures !PrimaryRepeated(models, BestFor(lower, models, WorkerRole))
  {
    hide Qualified, Winner, Candidates;
  }

  /** A provider that lists one model three times gives both workers the same model. */
  lemma ThriceListedIsRepeated(lower: string -> string, provider: string, model: ModelInfo)
    ensures var all := AllModels([Provider(provider, [model, model, model])]);
            all != [] && PrimaryRepeated(all, BestFor(lower, all, WorkerRole))
  {
    hide Qualified, Winner, Candidates;
    var p := Provider(provider, [model, model, model]);
    assert [p][..0] == [] && AllModels([]) == [];
    var all := AllModels([p]);
    assert all == SelectAll(provider, p.models);
    BestIsQualified(lower, all, WorkerRole);
    SelectAllMembers(provider, p.models, BestFor(lower, all, WorkerRole));
  }
}
