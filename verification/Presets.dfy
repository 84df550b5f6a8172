/** Choosing an agent preset for the configured providers, and adapting its agents to their models. */
module Presets {
  import opened Outcomes
  import opened Models
  import opened RecommendationSort

  datatype PresetType = Demo | Development | Production | Minimal

  datatype Category = Web | Api | Cli | Data | General

  /** An agent; `rest` stands for everything adaptation copies. */
  datatype Agent = Agent(id: string, kind: string, provider: string, model: string, costMagnitude: int,
      contextWindow: int, rest: string)

  datatype Collection = Collection(id: string, name: string, presetType: PresetType, category: Category,
      agents: seq<Agent>, minModels: int)

  datatype Error = Cancelled | Validation | NoSuitableModel | NoDemoPreset

  datatype Assessment = Assessment(collection: Collection, compatible: bool)

  type Recommendation = Ranked<Assessment>

  // ---------------------------------------------------------------- provider analysis

  datatype Capabilities = Capabilities(hasLocal: bool, hasCloud: bool, hasHighEnd: bool, hasCheap: bool,
      modelCount: nat,
                                       bestManager: Selection, bestWorker: Selection, bestSpecialist: Selection)

  predicate BetterManager(a: Selection, b: Selection) {
    a.model.contextWindow > b.model.contextWindow || (a.model.recommended && !b.model.recommended)
  }

  predicate BetterWorker(a: Selection, b: Selection) {
    || (a.costEffective && !b.costEffective)
    || (a.costEffective == b.costEffective && a.model.recommended && !b.model.recommended)
  }

  predicate BetterSpecialist(a: Selection, b: Selection) {
    (a.model.recommended && !b.model.recommended) || a.model.contextWindow > b.model.contextWindow
  }

  /** Going through the models once, replacing the choice whenever a model beats it. A choice without a provider name
      counts as none. */
  function Best(better: (Selection, Selection) -> bool, models: seq<Selection>): Selection {
    if models == [] then NOTHING
    else
      var before, m := Best(better, models[..|models| - 1]), models[|models| - 1];
      if before.provider == "" || better(m, before) then m else before
  }

  ghost predicate Describes(caps: Capabilities, models: seq<Selection>) {
    && (caps.hasLocal <==> exists m | m in models :: m.model.costMagnitude == 0)
    && (caps.hasCloud <==> exists m | m in models :: m.model.costMagnitude != 0)
    && (caps.hasHighEnd <==> exists m | m in models :: m.model.costMagnitude >= 5)
    && (caps.hasCheap <==> exists m | m in models :: m.model.costMagnitude <= 2)
    && caps.modelCount == |models|
    && caps.bestManager == Best(BetterManager, models)
    && caps.bestWorker == Best(BetterWorker, models)
    && caps.bestSpecialist == Best(BetterSpecialist, models)
  }

  lemma {:induction false} BestIsAModel(better: (Selection, Selection) -> bool, models: seq<Selection>)
    ensures models != [] ==> Best(better, models) in models
  {
    if models != [] {
      BestIsAModel(better, models[..|models| - 1]);
      assert models == models[..|models| - 1] + [models[|models| - 1]];
    }
  }

  lemma BestStep(better: (Selection, Selection) -> bool, models: seq<Selection>, m: Selection)
    ensures Best(better, []) == NOTHING
    ensures var before := Best(better, models);
            Best(better, models + [m]) == if before.provider == "" || better(m, before) then m else before
  {
    assert (models + [m])[..|models|] == models;
  }

  /** Model `k` is beaten by none and beats every model before it. */
  predicate LeftmostBest(models: seq<Selection>, k: nat)
    requires k < |models|
  {
    && (forall i | 0 <= i < |models| :: !BetterWorker(models[i], models[k]))
    && (forall i | 0 <= i < k :: BetterWorker(models[k], models[i]))
  }

  lemma LeftmostBestStep(models: seq<Selection>, k: nat, m: Selection)
    requires k < |models| && LeftmostBest(models, k)
    ensures LeftmostBest(models + [m], if BetterWorker(m, models[k]) then |models| else k)
  {
    var all := models + [m];
    assert forall i | 0 <= i < |models| :: all[i] == models[i];
    assert all[|models|] == m;
  }

  /** The worker's preference is a ranking: no model beats the chosen one, and the chosen one beats every earlier
      model. */
  lemma {:induction false} BestWorkerIsBest(models: seq<Selection>) returns (k: nat)
    requires models != [] && forall i | 0 <= i < |models| :: models[i].provider != ""
    ensures k < |models| && models[k] == Best(BetterWorker, models) && LeftmostBest(models, k)
  {
    hide Best, LeftmostBest, BetterWorker;
    var n := |models| - 1;
    var front, last := models[..n], models[n];
    assert models == front + [last];
    BestStep(BetterWorker, front, last);
    if n == 0 {
      k := 0;
      assert front == [];
      OnlyModelIsBest(models);
    } else {
      k := BestWorkerIsBest(front);
      LeftmostBestStep(front, k, last);
      k := if BetterWorker(last, front[k]) then n else k;
    }
  }

  lemma OnlyModelIsBest(models: seq<Selection>)
    requires |models| == 1
    ensures LeftmostBest(models, 0)
  {
  }

  /** The manager's and the specialist's preferences are no rankings: two models can beat each other, and then the
      later one of the two is chosen. */
  lemma ManagerChoiceDependsOnOrder(a: Selection, b: Selection)
    requires a.provider != "" && b.provider != "" && a.model.contextWindow > b.model.contextWindow
    requires !a.model.recommended && b.model.recommended
    ensures BetterManager(a, b) && BetterManager(b, a) && BetterSpecialist(a, b) && BetterSpecialist(b, a)
    ensures Best(BetterManager, [a, b]) == b && Best(BetterManager, [b, a]) == a
  {
    hide Best;
    BestStep(BetterManager, [], a);
    BestStep(BetterManager, [], b);
    assert [] + [a] == [a] && [] + [b] == [b] && [a] + [b] == [a, b] && [b] + [a] == [b, a];
    BestStep(BetterManager, [a], b);
    BestStep(BetterManager, [b], a);
  }

  /** Going through all models, the choice ends on an unbeaten one as soon as it has come by an unbeaten one. */
  lemma {:induction false} PassKeepsUnbeaten(merit: Merit, better: (Selection, Selection) -> bool, all: seq<Selection>,
      n: nat, k: nat)
    requires forall a, b :: better(a, b) <==> Beats(merit, a, b)
    requires forall m | m in all :: m.provider != ""
    requires k < n <= |all| && Unbeaten(merit, all, all[k])
    ensures Unbeaten(merit, all, Best(better, all[..n]))
  {
    hide Best, Unbeaten, Beats;
    var front, last := all[..n - 1], all[n - 1];
    assert all[..n] == front + [last];
    BestStep(better, front, last);
    if front == [] {
      assert k == 0 && last == all[k];
    } else {
      BestIsAModel(better, front);
      var current := Best(better, front);
      assert current in all;
      if k < n - 1 {
        PassKeepsUnbeaten(merit, better, all, n - 1, k);
        UnbeatenStays(merit, all, current, last);
      } else {
        PassMeetsTop(merit, all, last, current);
      }
    }
  }

  /** With named providers, the manager's and the specialist's model is beaten by none exactly when some model has the
      largest window of all and is recommended, unless no model is. */
  lemma UnbeatenChoiceExactly(models: seq<Selection>)
    requires models != [] && forall m | m in models :: m.provider != ""
    ensures (forall m | m in models :: !BetterManager(m, Best(BetterManager, models))) <==>
        exists u | u in models :: IsTop(LargeWindow, models, u)
    ensures (forall m | m in models :: !BetterSpecialist(m, Best(BetterSpecialist, models))) <==>
        exists u | u in models :: IsTop(LargeWindow, models, u)
  {
    hide Best;
    UnbeatenPass(BetterManager, models);
    UnbeatenPass(BetterSpecialist, models);
  }

  lemma UnbeatenPass(better: (Selection, Selection) -> bool, models: seq<Selection>)
    requires forall a, b :: better(a, b) <==> Beats(LargeWindow, a, b)
    requires models != [] && forall m | m in models :: m.provider != ""
    ensures (forall m | m in models :: !better(m, Best(better, models))) <==>
        exists u | u in models :: IsTop(LargeWindow, models, u)
  {
    hide Best, IsTop, Beats;
    BestIsAModel(better, models);
    UnbeatenIsTop(LargeWindow, models, Best(better, models));
    if u :| u in models && IsTop(LargeWindow, models, u) {
      UnbeatenIsTop(LargeWindow, models, u);
      var k :| 0 <= k < |models| && models[k] == u;
      PassKeepsUnbeaten(LargeWindow, better, models, |models|, k);
      assert models[..|models|] == models;
    }
  }

  /** One more model. */
  lemma DescribesStep(caps: Capabilities, models: seq<Selection>, m: Selection, caps': Capabilities)
    requires Describes(caps, models)
    requires caps' == Capabilities(
      caps.hasLocal || m.model.costMagnitude == 0, caps.hasCloud || m.model.costMagnitude != 0,
      caps.hasHighEnd || m.model.costMagnitude >= 5, caps.hasCheap || m.model.costMagnitude <= 2, caps.modelCount + 1,
      if caps.bestManager.provider == "" || BetterManager(m, caps.bestManager) then m else caps.bestManager,
      if caps.bestWorker.provider == "" || BetterWorker(m, caps.bestWorker) then m else caps.bestWorker,
      if caps.bestSpecialist.provider == "" || BetterSpecialist(m, caps.bestSpecialist) then m else caps.bestSpecialist)
    ensures Describes(caps', models + [m])
  {
    hide Best, BetterManager, BetterWorker, BetterSpecialist;
    BestStep(BetterManager, models, m);
    BestStep(BetterWorker, models, m);
    BestStep(BetterSpecialist, models, m);
    var all := models + [m];
    assert forall x :: x in all <==> x in models || x == m;
  }

  lemma NothingDescribed()
    ensures Describes(Capabilities(false, false, false, false, 0, NOTHING, NOTHING, NOTHING), [])
    ensures AllModels([]) == []
  {
  }

  lemma AllModelsStep(providers: seq<Provider>, i: nat)
    requires i < |providers|
    ensures AllModels(providers[..i + 1]) == AllModels(providers[..i]) +
        SelectAll(providers[i].name, providers[i].models)
  {
    assert providers[..i + 1][..i] == providers[..i];
  }

  lemma SelectedModel(provider: string, model: ModelInfo)
    ensures Select(provider, model).model == model
  {
  }

  lemma SelectNext(done: seq<Selection>, provider: Provider, j: nat)
    requires j < |provider.models|
    ensures var all := SelectAll(provider.name, provider.models);
            done + all[..j] + [Select(provider.name, provider.models[j])] == done + all[..j + 1]
  {
  }

  /** The capabilities that describe the models; there is only one such value. */
  ghost function AnalysisOf(models: seq<Selection>): (caps: Capabilities)
    ensures Describes(caps, models)
  {
    Capabilities(exists m | m in models :: m.model.costMagnitude == 0,
                 exists m | m in models :: m.model.costMagnitude != 0,
                 exists m | m in models :: m.model.costMagnitude >= 5,
                 exists m | m in models :: m.model.costMagnitude <= 2,
                 |models|, Best(BetterManager, models), Best(BetterWorker, models), Best(BetterSpecialist, models))
  }

  lemma AnalysisIsUnique(a: Capabilities, b: Capabilities, models: seq<Selection>)
    requires Describes(a, models) && Describes(b, models)
    ensures a == b
  {
  }

  method AnalyzeProviderCapabilities(providers: seq<Provider>) returns (caps: Capabilities)
    ensures Describes(caps, AllModels(providers)) && caps == AnalysisOf(AllModels(providers))
  {
    hide Describes, BetterManager, BetterWorker, BetterSpecialist, Best, AllModels, AnalysisOf, Select;
    caps := Capabilities(false, false, false, false, 0, NOTHING, NOTHING, NOTHING);
    NothingDescribed();
    var i := 0;
    while i < |providers|
      invariant 0 <= i <= |providers|
      invariant Describes(caps, AllModels(providers[..i]))
    {
      var provider := providers[i];
      ghost var done := AllModels(providers[..i]);
      ghost var all := SelectAll(provider.name, provider.models);
      var j := 0;
      assert done + all[..0] == done;
      while j < |provider.models|
        invariant 0 <= j <= |provider.models|
        invariant Describes(caps, done + all[..j])
      {
        var model := provider.models[j];
        var selection := Select(provider.name, model);
        SelectedModel(provider.name, model);
        ghost var before := caps;
        caps := caps.(modelCount := caps.modelCount + 1);
        if model.costMagnitude == 0 {
          caps := caps.(hasLocal := true);
        } else {
          caps := caps.(hasCloud := true);
        }
        if model.costMagnitude >= 5 {
          caps := caps.(hasHighEnd := true);
        }
        if model.costMagnitude <= 2 {
          caps := caps.(hasCheap := true);
        }
        if caps.bestManager.provider == "" || BetterManager(selection, caps.bestManager) {
          caps := caps.(bestManager := selection);
        }
        if caps.bestWorker.provider == "" || BetterWorker(selection, caps.bestWorker) {
          caps := caps.(bestWorker := selection);
        }
        if caps.bestSpecialist.provider == "" || BetterSpecialist(selection, caps.bestSpecialist) {
          caps := caps.(bestSpecialist := selection);
        }
        DescribesStep(before, done + all[..j], selection, caps);
        SelectNext(done, provider, j);
        j := j + 1;
      }
      assert all[..j] == all;
      AllModelsStep(providers, i);
      i := i + 1;
    }
    assert providers[..i] == providers;
    AnalysisIsUnique(caps, AnalysisOf(AllModels(providers)), AllModels(providers));
  }

  // ---------------------------------------------------------------- evaluation

  /** A project's type as given and in lower case. */
  datatype Project = Project(projectType: string, lowered: string)

  function CategoryOf(lowered: string): Category {
    if lowered == "web" || lowered == "webapp" || lowered == "website" then Web
    else if lowered == "api" || lowered == "microservice" || lowered == "service" then Api
    else if lowered == "cli" || lowered == "tool" || lowered == "command" then Cli
    else if lowered == "data" || lowered == "analytics" || lowered == "ml" || lowered == "ai" then Data
    else General
  }

  predicate IsDemo(project: Option<Project>) {
    project.Some? && project.value.projectType == "demo"
  }

  function When(condition: bool, bonus: real): real {
    if condition then bonus else 0.0
  }

  /** The confidence in a preset that enough models support. */
  function Confidence(c: Collection, caps: Capabilities, project: Option<Project>): real {
    var total :=
      0.5
      + When(IsDemo(project) && c.presetType.Demo?, 0.3)
      + When(project.Some? && CategoryOf(project.value.lowered) == c.category, 0.2)
      + When(c.presetType.Demo? && caps.hasCloud, 0.1)
      + When(c.presetType.Production?, if caps.hasHighEnd then 0.2 else -0.2)
      + When(c.presetType.Minimal? && (caps.hasCheap || caps.hasLocal), 0.2)
      + When(c.id == "claude-code-optimized", if caps.hasCloud || caps.hasLocal then 0.3 else -0.4)
      + When(c.id == "ollama-local", if caps.hasLocal then 0.3 else -0.5);
    if total < 0.0 then 0.0 else if total > 1.0 then 1.0 else total
  }

  predicate Compatible(c: Collection, caps: Capabilities) {
    caps.modelCount >= c.minModels
  }

  function Evaluation(c: Collection, caps: Capabilities, project: Option<Project>): Recommendation {
    Ranked(if Compatible(c, caps) then Confidence(c, caps, project) else 0.0, Assessment(c, Compatible(c, caps)))
  }

  method EvaluatePreset(c: Collection, caps: Capabilities, project: Option<Project>) returns (r: Recommendation)
    ensures r == Evaluation(c, caps, project) && 0.0 <= r.confidence <= 1.0
  {
    hide CategoryOf;
    if caps.modelCount < c.minModels {
      return Ranked(0.0, Assessment(c, false));
    }
    var baseConfidence := 0.5;
    if IsDemo(project) && c.presetType.Demo? {
      baseConfidence := baseConfidence + 0.3;
    }
    if project.Some? {
      if CategoryOf(project.value.lowered) == c.category {
        baseConfidence := baseConfidence + 0.2;
      }
    }
    match c.presetType {
      case Demo =>
        if caps.hasCloud {
          baseConfidence := baseConfidence + 0.1;
        }
      case Production =>
        if caps.hasHighEnd {
          baseConfidence := baseConfidence + 0.2;
        } else {
          baseConfidence := baseConfidence - 0.2;
        }
      case Minimal =>
        if caps.hasCheap || caps.hasLocal {
          baseConfidence := baseConfidence + 0.2;
        }
      case Development =>
    }
    if c.id == "claude-code-optimized" {
      if caps.hasCloud || caps.hasLocal {
        baseConfidence := baseConfidence + 0.3;
      } else {
        baseConfidence := baseConfidence - 0.4;
      }
    } else if c.id == "ollama-local" {
      if caps.hasLocal {
        baseConfidence := baseConfidence + 0.3;
      } else {
        baseConfidence := baseConfidence - 0.5;
      }
    }
    var confidence := baseConfidence;
    if confidence < 0.0 {
      confidence := 0.0;
    }
    if confidence > 1.0 {
      confidence := 1.0;
    }
    r := Ranked(confidence, Assessment(c, true));
  }

  // ---------------------------------------------------------------- recommendation

  predicate Viable(r: Recommendation) {
    r.confidence > 0.1
  }

  /** The viable evaluations of the presets, in a given order. */
  function ViableIn(order: seq<string>, presets: map<string, Collection>, caps: Capabilities,
      project: Option<Project>): seq<Recommendation>
    requires forall id | id in order :: id in presets
  {
    if order == [] then []
    else
      var before := ViableIn(order[..|order| - 1], presets, caps, project);
      var r := Evaluation(presets[order[|order| - 1]], caps, project);
      if Viable(r) then before + [r] else before
  }

  ghost predicate Visits(order: seq<string>, ids: set<string>) {
    (forall id :: id in order <==> id in ids) && forall i, j | 0 <= i < j < |order| :: order[i] != order[j]
  }

  /** `recs` is the stable sort of the viable evaluations in some order of the presets. */
  ghost predicate Recommended(recs: seq<Recommendation>, presets: map<string, Collection>, caps: Capabilities,
      project: Option<Project>) {
    exists order :: Visits(order, presets.Keys) && recs == StableSort(ViableIn(order, presets, caps, project))
  }

  lemma {:induction false} ViableMembers(order: seq<string>, presets: map<string, Collection>, caps: Capabilities,
      project: Option<Project>, r: Recommendation)
    requires forall id | id in order :: id in presets
    ensures r in ViableIn(order, presets, caps, project) <==>
            Viable(r) && exists id | id in order :: r == Evaluation(presets[id], caps, project)
  {
    hide Evaluation, Viable;
    if order != [] {
      ViableMembers(order[..|order| - 1], presets, caps, project, r);
      assert order == order[..|order| - 1] + [order[|order| - 1]];
    }
  }

  /** Recommendations descend in confidence, and a preset is recommended exactly when its evaluation is viable; every
      recommended preset has enough models. */
  lemma RecommendationsExact(recs: seq<Recommendation>, presets: map<string, Collection>, caps: Capabilities,
      project: Option<Project>)
    requires Recommended(recs, presets, caps, project)
    ensures Descending(recs)
    ensures forall r :: r in recs <==>
        Viable(r) && exists id | id in presets :: r == Evaluation(presets[id], caps, project)
    ensures forall r | r in recs ::
        r.item.compatible && Compatible(r.item.collection, caps) && 0.1 < r.confidence <= 1.0
  {
    hide Confidence;
    var order :| Visits(order, presets.Keys) && recs == StableSort(ViableIn(order, presets, caps, project));
    var viable := ViableIn(order, presets, caps, project);
    StableSortKeeps(viable);
    forall r ensures r in recs <==>
        Viable(r) && exists id | id in presets :: r == Evaluation(presets[id], caps, project) {
      ViableMembers(order, presets, caps, project, r);
      assert r in recs <==> r in multiset(recs);
    }
    forall r | r in recs ensures r.item.compatible && Compatible(r.item.collection, caps) && 0.1 < r.confidence <= 1.0 {
      var id :| id in presets && r == Evaluation(presets[id], caps, project);
      ConfidenceBounded(presets[id], caps, project);
    }
  }

  lemma ConfidenceBounded(c: Collection, caps: Capabilities, project: Option<Project>)
    ensures 0.0 <= Confidence(c, caps, project) <= 1.0
  {
  }

  method RecommendPresets(presets: map<string, Collection>, providers: seq<Provider>, project: Option<Project>,
      ctx: Context)
    returns (result: Result<seq<Recommendation>, Error>)
    ensures if ctx.Done(0) then result == Err(Cancelled)
            else if providers == [] then result == Err(Validation)
            else result.Ok? && Recommended(result.value, presets, AnalysisOf(AllModels(providers)), project)
  {
    hide Evaluation, Viable, Describes, AnalysisOf, StableSort;
    if ctx.Done(0) {
      return Err(Cancelled);
    }
    if |providers| == 0 {
      return Err(Validation);
    }
    var recommendations: seq<Recommendation> := [];
    var analysis := AnalyzeProviderCapabilities(providers);
    ghost var order: seq<string> := [];
    var rest := presets.Keys;
    while rest != {}
      invariant rest <= presets.Keys
      invariant forall id :: id in order <==> id in presets && id !in rest
      invariant forall i, j | 0 <= i < j < |order| :: order[i] != order[j]
      invariant recommendations == ViableIn(order, presets, analysis, project)
    {
      var id :| id in rest;
      rest := rest - {id};
      var recommendation := EvaluatePreset(presets[id], analysis, project);
      assert (order + [id])[..|order|] == order;
      order := order + [id];
      ViableByConfidence(recommendation);
      if recommendation.confidence > 0.1 {
        recommendations := recommendations + [recommendation];
      }
    }
    var a := new Recommendation[|recommendations|](i requires 0 <= i < |recommendations| => recommendations[i]);
    assert a[..] == recommendations;
    SortByConfidence(a);
    assert Visits(order, presets.Keys);
    result := Ok(a[..]);
  }

  lemma ViableByConfidence(r: Recommendation)
    ensures Viable(r) <==> r.confidence > 0.1
  {
  }

  // ---------------------------------------------------------------- adaptation

  function Chosen(kind: string, caps: Capabilities): Selection {
    if kind == "manager" then caps.bestManager
    else if kind == "specialist" then caps.bestSpecialist
    else caps.bestWorker
  }

  /** What adapting an agent yields: itself when its own choice is configured, the best model for its kind otherwise. */
  function Adapted(agent: Agent, providers: seq<Provider>, caps: Capabilities): Result<Agent, Error> {
    if agent.provider != "auto" && Configured(providers, agent.provider, agent.model) then Ok(agent)
    else
      var s := Chosen(agent.kind, caps);
      if s.provider == "" then Err(NoSuitableModel)
      else Ok(agent.(provider := s.provider, model := s.model.name, costMagnitude := s.model.costMagnitude,
          contextWindow := s.model.contextWindow))
  }

  method AdaptAgentForProviders(agent: Agent, providers: seq<Provider>, cancelled: bool)
      returns (r: Result<Agent, Error>)
    ensures r == if cancelled then Err(Cancelled) else Adapted(agent, providers, AnalysisOf(AllModels(providers)))
  {
    hide Describes, AnalysisOf;
    if cancelled {
      return Err(Cancelled);
    }
    if agent.provider != "auto" {
      var i := 0;
      while i < |providers|
        invariant 0 <= i <= |providers|
        invariant forall k | 0 <= k < i ::
            !(providers[k].name == agent.provider && exists m | m in providers[k].models :: m.name == agent.model)
      {
        if providers[i].name == agent.provider {
          var j := 0;
          while j < |providers[i].models|
            invariant 0 <= j <= |providers[i].models|
            invariant forall k | 0 <= k < j :: providers[i].models[k].name != agent.model
          {
            if providers[i].models[j].name == agent.model {
              assert providers[i] in providers && providers[i].models[j] in providers[i].models;
              return Ok(agent);
            }
            j := j + 1;
          }
        }
        i := i + 1;
      }
    }
    var analysis := AnalyzeProviderCapabilities(providers);
    var selected := Chosen(agent.kind, analysis);
    if selected.provider == "" {
      return Err(NoSuitableModel);
    }
    r := Ok(agent.(provider := selected.provider, model := selected.model.name,
        costMagnitude := selected.model.costMagnitude,
                   contextWindow := selected.model.contextWindow));
  }

  /** Adapting agents from the front, stopping at the first that fails or at cancellation. */
  function AdaptedAgents(agents: seq<Agent>, providers: seq<Provider>, caps: Capabilities,
      ctx: Context): Result<seq<Agent>, Error> {
    if agents == [] then Ok([])
    else
      var n := |agents| - 1;
      match AdaptedAgents(agents[..n], providers, caps, ctx)
      case Err(e) => Err(e)
      case Ok(front) =>
        if ctx.Done(n + 1) then Err(Cancelled)
        else match Adapted(agents[n], providers, caps)
          case Err(e) => Err(e)
          case Ok(agent) => Ok(front + [agent])
  }

  /** The whole collection; None stands for a missing one. */
  function AdaptedPreset(collection: Option<Collection>, providers: seq<Provider>, caps: Capabilities,
      ctx: Context): Result<Collection, Error> {
    if ctx.Done(0) then Err(Cancelled)
    else if collection.None? || providers == [] then Err(Validation)
    else
      var c := collection.value;
      match AdaptedAgents(c.agents, providers, caps, ctx)
      case Err(e) => Err(e)
      case Ok(agents) => Ok(c.(id := c.id + "-adapted", name := c.name + " (Adapted)", agents := agents))
  }

  lemma {:induction false} FailureSticks(agents: seq<Agent>, n: nat, providers: seq<Provider>, caps: Capabilities,
      ctx: Context)
    requires n <= |agents| && AdaptedAgents(agents[..n], providers, caps, ctx).Err?
    ensures AdaptedAgents(agents, providers, caps, ctx) == AdaptedAgents(agents[..n], providers, caps, ctx)
    decreases |agents|
  {
    hide Adapted;
    if n == |agents| {
      assert agents[..n] == agents;
    } else {
      var front := agents[..|agents| - 1];
      assert front[..n] == agents[..n];
      FailureSticks(front, n, providers, caps, ctx);
    }
  }

  method AdaptPresetForProviders(collection: Option<Collection>, providers: seq<Provider>, ctx: Context)
    returns (result: Result<Collection, Error>)
    ensures result == AdaptedPreset(collection, providers, AnalysisOf(AllModels(providers)), ctx)
  {
    hide AnalysisOf, Adapted;
    ghost var caps := AnalysisOf(AllModels(providers));
    if ctx.Done(0) {
      return Err(Cancelled);
    }
    if collection.None? {
      return Err(Validation);
    }
    if |providers| == 0 {
      return Err(Validation);
    }
    var c := collection.value;
    var agents: seq<Agent> := [];
    var i := 0;
    while i < |c.agents|
      invariant 0 <= i <= |c.agents|
      invariant AdaptedAgents(c.agents[..i], providers, caps, ctx) == Ok(agents)
    {
      assert c.agents[..i + 1][..i] == c.agents[..i];
      var r := AdaptAgentForProviders(c.agents[i], providers, ctx.Done(i + 1));
      if r.Err? {
        FailureSticks(c.agents, i + 1, providers, caps, ctx);
        return Err(r.error);
      }
      agents := agents + [r.value];
      i := i + 1;
    }
    assert c.agents[..i] == c.agents;
    result := Ok(c.(id := c.id + "-adapted", name := c.name + " (Adapted)", agents := agents));
  }

  // ---------------------------------------------------------------- the pipeline

  /** The built-in preset that a single model supports is there. */
  predicate HasDemoMinimal(presets: map<string, Collection>) {
    "demo-minimal" in presets &&
    var c := presets["demo-minimal"];
    c.id == "demo-minimal" && c.presetType.Demo? && c.minModels <= 1
  }

  /** Some model is configured and every provider has a name. */
  predicate Usable(providers: seq<Provider>) {
    AllModels(providers) != [] && forall p | p in providers :: p.name != ""
  }

  lemma ChosenIsConfigured(providers: seq<Provider>, caps: Capabilities, kind: string)
    requires Usable(providers) && Describes(caps, AllModels(providers))
    ensures var s := Chosen(kind, caps); s.provider != "" && Configured(providers, s.provider, s.model.name)
  {
    var models := AllModels(providers);
    BestIsAModel(BetterManager, models);
    BestIsAModel(BetterWorker, models);
    BestIsAModel(BetterSpecialist, models);
    var s := Chosen(kind, caps);
    AllModelsMembers(providers, s);
    SelectedIsConfigured(providers, s);
  }

  /** With usable providers adaptation of an agent succeeds, keeps everything but the model choice, chooses a configured
      model, and changes nothing the second time. */
  lemma AdaptationSucceeds(agent: Agent, providers: seq<Provider>, caps: Capabilities)
    requires Usable(providers) && Describes(caps, AllModels(providers))
    ensures Adapted(agent, providers, caps).Ok?
    ensures var a := Adapted(agent, providers, caps).value;
            && a.id == agent.id && a.kind == agent.kind && a.rest == agent.rest
            && Configured(providers, a.provider, a.model)
            && Adapted(a, providers, caps) == Ok(a)
  {
    hide Describes, Configured, Usable;
    ChosenIsConfigured(providers, caps, agent.kind);
  }

  lemma {:induction false} AgentsAdapt(agents: seq<Agent>, providers: seq<Provider>, caps: Capabilities, ctx: Context)
    requires Usable(providers) && Describes(caps, AllModels(providers)) && ctx.cancelledFrom == None
    ensures AdaptedAgents(agents, providers, caps, ctx).Ok?
    ensures var out := AdaptedAgents(agents, providers, caps, ctx).value;
            && |out| == |agents|
            && (forall i | 0 <= i < |agents| ::
                out[i].id == agents[i].id && out[i].kind == agents[i].kind && out[i].rest == agents[i].rest
                                                && Configured(providers, out[i].provider, out[i].model)
                                                && Adapted(out[i], providers, caps) == Ok(out[i]))
  {
    hide Describes, Configured, Usable, Adapted;
    if agents != [] {
      AgentsAdapt(agents[..|agents| - 1], providers, caps, ctx);
      AdaptationSucceeds(agents[|agents| - 1], providers, caps);
    }
  }

  lemma {:induction false} StableAgentsStay(agents: seq<Agent>, providers: seq<Provider>, caps: Capabilities,
      ctx: Context)
    requires ctx.cancelledFrom == None && forall i | 0 <= i < |agents| ::
        Adapted(agents[i], providers, caps) == Ok(agents[i])
    ensures AdaptedAgents(agents, providers, caps, ctx) == Ok(agents)
  {
    hide Adapted;
    if agents != [] {
      StableAgentsStay(agents[..|agents| - 1], providers, caps, ctx);
      assert agents == agents[..|agents| - 1] + [agents[|agents| - 1]];
    }
  }

  /** With usable providers and the minimal demo preset there is always a demo preset to recommend, whatever the
      project. */
  lemma DemoIsRecommended(presets: map<string, Collection>, providers: seq<Provider>, project: Option<Project>,
      caps: Capabilities, recs: seq<Recommendation>)
    requires Usable(providers) && Describes(caps, AllModels(providers)) && HasDemoMinimal(presets)
    requires Recommended(recs, presets, caps, project)
    ensures exists r | r in recs :: r.item.compatible && r.item.collection.presetType.Demo?
  {
    hide Describes, Viable, Confidence, Recommended;
    RecommendationsExact(recs, presets, caps, project);
    DemoMinimalIsViable(presets["demo-minimal"], caps, project, AllModels(providers));
    assert Evaluation(presets["demo-minimal"], caps, project) in recs;
  }

  /** With usable providers adapting any preset succeeds, keeps every agent's place, ID and kind, and assigns configured
      models only; adapting the result again changes no agent. So the pipeline cannot fail after recommending. */
  lemma PresetAdapts(c: Collection, providers: seq<Provider>, caps: Capabilities, ctx: Context)
    requires Usable(providers) && Describes(caps, AllModels(providers)) && ctx.cancelledFrom == None
    ensures var once := AdaptedPreset(Some(c), providers, caps, ctx);
            && once.Ok? && once.value.presetType == c.presetType && |once.value.agents| == |c.agents|
            && (forall i | 0 <= i < |c.agents| ::
                once.value.agents[i].id == c.agents[i].id && once.value.agents[i].kind == c.agents[i].kind
                                                  && Configured(providers, once.value.agents[i].provider,
                                                      once.value.agents[i].model))
            && AdaptedPreset(Some(once.value), providers, caps, ctx).Ok?
            && AdaptedPreset(Some(once.value), providers, caps, ctx).value.agents == once.value.agents
  {
    hide Describes, Configured, Adapted, AdaptedAgents;
    UsableIsNotEmpty(providers);
    AgentsAdapt(c.agents, providers, caps, ctx);
    StableAgentsStay(AdaptedAgents(c.agents, providers, caps, ctx).value, providers, caps, ctx);
  }

  lemma UsableIsNotEmpty(providers: seq<Provider>)
    requires Usable(providers)
    ensures providers != []
  {
  }

  lemma DemoMinimalIsViable(c: Collection, caps: Capabilities, project: Option<Project>, models: seq<Selection>)
    requires c.minModels <= 1 && c.presetType.Demo? && c.id == "demo-minimal" && Describes(caps, models) && models != []
    ensures Viable(Evaluation(c, caps, project))
  {
  }

  /** The first recommended preset that is a compatible demo. */
  function FirstDemo(recs: seq<Recommendation>): Option<Collection> {
    if recs == [] then None
    else if recs[0].item.collection.presetType.Demo? && recs[0].item.compatible then Some(recs[0].item.collection)
    else FirstDemo(recs[1..])
  }

  /** The preset `DemoPreset` adapts. */
  function DemoChoice(recs: seq<Recommendation>, presets: map<string, Collection>): Option<Collection> {
    if FirstDemo(recs).Some? then FirstDemo(recs)
    else if "demo-minimal" in presets then Some(presets["demo-minimal"])
    else None
  }

  function DemoResult(recs: seq<Recommendation>, presets: map<string, Collection>, providers: seq<Provider>,
      caps: Capabilities,
                      ctx: Context): Result<Collection, Error>
  {
    if DemoChoice(recs, presets).None? then Err(NoDemoPreset)
        else AdaptedPreset(DemoChoice(recs, presets), providers, caps, ctx)
  }

  const DEMO_PROJECT: Option<Project> := Some(Project("demo", "demo"))

  lemma {:induction false} FirstDemoIsRecommended(recs: seq<Recommendation>)
    ensures FirstDemo(recs).Some? <==> exists r | r in recs :: r.item.compatible && r.item.collection.presetType.Demo?
    ensures FirstDemo(recs).Some? ==> FirstDemo(recs).value.presetType.Demo?
  {
    if recs != [] {
      FirstDemoIsRecommended(recs[1..]);
      assert recs == [recs[0]] + recs[1..];
    }
  }

  lemma FirstDemoStep(recs: seq<Recommendation>, i: nat)
    requires i < |recs|
    ensures FirstDemo(recs[i..]) ==
              if recs[i].item.collection.presetType.Demo? && recs[i].item.compatible then Some(recs[i].item.collection)
                  else FirstDemo(recs[i + 1..])
  {
    assert recs[i..][1..] == recs[i + 1..];
  }

  /** With usable providers and the minimal demo preset, the demo pipeline chooses a demo preset and adapting it
      succeeds with configured models only. */
  lemma DemoCannotFail(presets: map<string, Collection>, providers: seq<Provider>, caps: Capabilities,
      recs: seq<Recommendation>, ctx: Context)
    requires Usable(providers) && Describes(caps, AllModels(providers)) && HasDemoMinimal(presets) &&
        ctx.cancelledFrom == None
    requires Recommended(recs, presets, caps, DEMO_PROJECT)
    ensures var result := DemoResult(recs, presets, providers, caps, ctx);
            result.Ok? && result.value.presetType.Demo? && forall a | a in result.value.agents ::
                Configured(providers, a.provider, a.model)
  {
    hide Describes, Configured, Recommended, Usable, AdaptedPreset, HasDemoMinimal;
    DemoIsRecommended(presets, providers, DEMO_PROJECT, caps, recs);
    FirstDemoIsRecommended(recs);
    PresetAdapts(FirstDemo(recs).value, providers, caps, ctx);
  }

  /** `DemoPreset`: the first compatible demo preset recommended for a demo project, adapted. The three contexts are the
      caller's, seen at the start and by the two calls it makes. */
  method DemoPreset(presets: map<string, Collection>, providers: seq<Provider>, ctx: Context, recommendCtx: Context,
      adaptCtx: Context)
    returns (result: Result<Collection, Error>)
    ensures if ctx.Done(0) || recommendCtx.Done(0) then result == Err(Cancelled)
            else if providers == [] then result == Err(Validation)
            else
              var caps := AnalysisOf(AllModels(providers));
              exists recs ::
                  Recommended(recs, presets, caps, DEMO_PROJECT) &&
                  result == DemoResult(recs, presets, providers, caps, adaptCtx)
  {
    hide AnalysisOf, Recommended, AdaptedPreset;
    if ctx.Done(0) {
      return Err(Cancelled);
    }
    var recommendations := RecommendPresets(presets, providers, DEMO_PROJECT, recommendCtx);
    if recommendations.Err? {
      return Err(recommendations.error);
    }
    ghost var recs := recommendations.value;
    var i := 0;
    while i < |recommendations.value|
      invariant 0 <= i <= |recs|
      invariant FirstDemo(recs) == FirstDemo(recs[i..])
    {
      var r := recommendations.value[i];
      FirstDemoStep(recs, i);
      if r.item.collection.presetType.Demo? && r.item.compatible {
        result := AdaptPresetForProviders(Some(r.item.collection), providers, adaptCtx);
        return;
      }
      i := i + 1;
    }
    assert FirstDemo(recs) == None;
    if "demo-minimal" !in presets {
      return Err(NoDemoPreset);
    }
    result := AdaptPresetForProviders(Some(presets["demo-minimal"]), providers, adaptCtx);
  }
}
