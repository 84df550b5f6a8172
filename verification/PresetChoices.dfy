/** Which model an adapted agent gets, what a preset's confidence is made of, and which demo is chosen, in plain
    terms. */
module PresetChoices {
  import opened Outcomes
  import opened Models
  import opened RecommendationSort
  import opened Presets

  // ---------------------------------------------------------------- models

  /** How well a model suits a worker: affordable ones first, and recommended ones first among equals. */
  function WorkerRank(m: ModelInfo): nat {
    (if m.costMagnitude <= 3 then 2 else 0) + (if m.recommended then 1 else 0)
  }

  /** The leftmost of the models that suit a worker best. */
  predicate SuitsWorker(models: seq<Selection>, k: nat)
    requires k < |models|
  {
    && (forall i | 0 <= i < |models| :: WorkerRank(models[i].model) <= WorkerRank(models[k].model))
    && (forall i | 0 <= i < k :: WorkerRank(models[i].model) < WorkerRank(models[k].model))
  }

  /** The largest window of all, and recommended if any model is. */
  predicate LeadsAll(models: seq<Selection>, s: Selection) {
    && (forall m | m in models :: m.model.contextWindow <= s.model.contextWindow)
    && (s.model.recommended || forall m | m in models :: !m.model.recommended)
  }

  lemma BetterWorkerByRank(a: Selection, b: Selection)
    requires a.costEffective == (a.model.costMagnitude <= 3) && b.costEffective == (b.model.costMagnitude <= 3)
    ensures BetterWorker(a, b) <==> WorkerRank(a.model) > WorkerRank(b.model)
  {
  }

  lemma AffordableUpToThree(providers: seq<Provider>, m: Selection)
    requires m in AllModels(providers)
    ensures m.costEffective == (m.model.costMagnitude <= 3)
  {
    AllModelsMembers(providers, m);
  }

  lemma WorkerGetsLeftmostBest(providers: seq<Provider>, caps: Capabilities) returns (k: nat)
    requires Usable(providers) && Describes(caps, AllModels(providers))
    ensures var models := AllModels(providers); k < |models| && caps.bestWorker == models[k] && SuitsWorker(models, k)
  {
    hide BetterWorker, Best, WorkerRank;
    var models := AllModels(providers);
    NamedModels(providers);
    k := BestWorkerIsBest(models);
    forall i | 0 <= i < |models|
      ensures BetterWorker(models[i], models[k]) <==> WorkerRank(models[i].model) > WorkerRank(models[k].model)
      ensures BetterWorker(models[k], models[i]) <==> WorkerRank(models[k].model) > WorkerRank(models[i].model)
    {
      AffordableUpToThree(providers, models[i]);
      AffordableUpToThree(providers, models[k]);
      BetterWorkerByRank(models[i], models[k]);
      BetterWorkerByRank(models[k], models[i]);
    }
  }

  lemma NamedModels(providers: seq<Provider>)
    requires Usable(providers)
    ensures AllModels(providers) != [] && forall m | m in AllModels(providers) :: m.provider != ""
  {
    forall m | m in AllModels(providers) ensures m.provider != "" {
      AllModelsMembers(providers, m);
    }
  }

  lemma LeaderIsChosen(providers: seq<Provider>, caps: Capabilities)
    requires Usable(providers) && Describes(caps, AllModels(providers))
    requires exists u | u in AllModels(providers) :: LeadsAll(AllModels(providers), u)
    ensures LeadsAll(AllModels(providers), caps.bestManager) && LeadsAll(AllModels(providers), caps.bestSpecialist)
    ensures caps.bestManager in AllModels(providers) && caps.bestSpecialist in AllModels(providers)
  {
    hide Best, AllModels;
    var models := AllModels(providers);
    NamedModels(providers);
    BestIsAModel(BetterManager, models);
    BestIsAModel(BetterSpecialist, models);
    var u :| u in models && LeadsAll(models, u);
    assert IsTop(LargeWindow, models, u);
    UnbeatenChoiceExactly(models);
  }

  // ---------------------------------------------------------------- adaptation

  /** The agent was given model `s`, and nothing else of it changed. */
  predicate Given(agent: Agent, s: Selection, adapted: Agent) {
    adapted == Agent(agent.id, agent.kind, s.provider, s.model.name, s.model.costMagnitude, s.model.contextWindow,
        agent.rest)
  }

  /** An agent whose own choice is configured keeps it; "auto" is no choice. */
  lemma OwnChoiceStays(agent: Agent, providers: seq<Provider>, caps: Capabilities)
    requires agent.provider != "auto"
    requires exists p, m | p in providers && m in p.models :: p.name == agent.provider && m.name == agent.model
    ensures Adapted(agent, providers, caps) == Ok(agent)
  {
  }

  /** With named providers and a model, any other agent is given a configured model by its kind: a manager or a
      specialist one that leads all, whenever there is one; everyone else the leftmost of those that suit a worker
      best. */
  lemma KindDecides(agent: Agent, providers: seq<Provider>, caps: Capabilities)
    requires Usable(providers) && Describes(caps, AllModels(providers))
    requires agent.provider == "auto"
             || !exists p, m | p in providers && m in p.models :: p.name == agent.provider && m.name == agent.model
    ensures var models := AllModels(providers);
            Adapted(agent, providers, caps).Ok? &&
            var adapted := Adapted(agent, providers, caps).value;
            && (exists s | s in models :: Given(agent, s, adapted))
            && (agent.kind in {"manager", "specialist"} && (exists u | u in models :: LeadsAll(models, u)) ==>
                  exists s | s in models :: LeadsAll(models, s) && Given(agent, s, adapted))
            && (agent.kind !in {"manager", "specialist"} ==>
                  exists k | 0 <= k < |models| :: SuitsWorker(models, k) && Given(agent, models[k], adapted))
  {
    hide AllModels, SuitsWorker, LeadsAll, Usable;
    var models := AllModels(providers);
    NotConfigured(agent, providers);
    ChosenIsAModel(providers, caps, agent.kind);
    if agent.kind !in {"manager", "specialist"} {
      var k := WorkerGetsLeftmostBest(providers, caps);
      assert Given(agent, models[k], Adapted(agent, providers, caps).value);
    } else if exists u | u in models :: LeadsAll(models, u) {
      LeaderIsChosen(providers, caps);
    }
  }

  lemma NotConfigured(agent: Agent, providers: seq<Provider>)
    requires agent.provider == "auto"
             || !exists p, m | p in providers && m in p.models :: p.name == agent.provider && m.name == agent.model
    ensures !(agent.provider != "auto" && Configured(providers, agent.provider, agent.model))
  {
  }

  lemma ChosenIsAModel(providers: seq<Provider>, caps: Capabilities, kind: string)
    requires Usable(providers) && Describes(caps, AllModels(providers))
    ensures Chosen(kind, caps) in AllModels(providers) && Chosen(kind, caps).provider != ""
  {
    var models := AllModels(providers);
    NamedModels(providers);
    BestIsAModel(BetterManager, models);
    BestIsAModel(BetterWorker, models);
    BestIsAModel(BetterSpecialist, models);
  }

  /** Adapting a preset marks its ID and name, keeps its type, category and size, and adapts every agent at its
      place. */
  lemma PresetKeeps(c: Collection, providers: seq<Provider>, caps: Capabilities, ctx: Context)
    requires AdaptedPreset(Some(c), providers, caps, ctx).Ok?
    ensures var out := AdaptedPreset(Some(c), providers, caps, ctx).value;
            && out.id == c.id + "-adapted" && out.name == c.name + " (Adapted)"
            && out.presetType == c.presetType && out.category == c.category && out.minModels == c.minModels
            && |out.agents| == |c.agents|
            && forall i | 0 <= i < |c.agents| :: Adapted(c.agents[i], providers, caps) == Ok(out.agents[i])
  {
    hide Adapted;
    AgentsKeep(c.agents, providers, caps, ctx);
  }

  /** The context is cancelled when agent `i` comes up. */
  predicate CutOff(ctx: Context, i: nat) {
    ctx.Done(i + 1)
  }

  lemma {:induction false} AgentsKeep(agents: seq<Agent>, providers: seq<Provider>, caps: Capabilities, ctx: Context)
    requires AdaptedAgents(agents, providers, caps, ctx).Ok?
    ensures var out := AdaptedAgents(agents, providers, caps, ctx).value;
            && |out| == |agents| && (forall i | 0 <= i < |agents| :: !CutOff(ctx, i))
            && forall i | 0 <= i < |agents| :: Adapted(agents[i], providers, caps) == Ok(out[i])
  {
    hide Adapted;
    if agents != [] {
      AgentsKeep(agents[..|agents| - 1], providers, caps, ctx);
    }
  }

  /** When adapting a preset fails: cancelled at the start; without a preset or without providers; and otherwise at
      the first agent that comes after the cancellation or finds no model, with that reason. */
  lemma PresetFailsExactly(collection: Option<Collection>, providers: seq<Provider>, caps: Capabilities, ctx: Context)
    ensures var result := AdaptedPreset(collection, providers, caps, ctx);
            && (ctx.Done(0) ==> result == Err(Cancelled))
            && (!ctx.Done(0) && (collection == None || providers == []) ==> result == Err(Validation))
            && (!ctx.Done(0) && collection != None && providers != [] ==>
                  var agents := collection.value.agents;
                  if result.Ok? then forall i | 0 <= i < |agents| :: !Trouble(agents, providers, caps, ctx, i)
                  else
                    exists i | 0 <= i < |agents| :: Trouble(agents, providers, caps, ctx, i)
                      && (forall j | 0 <= j < i :: !Trouble(agents, providers, caps, ctx, j))
                      && result.error == if CutOff(ctx, i) then Cancelled else NoSuitableModel)
  {
    hide Adapted;
    if collection.Some? {
      AgentsFail(collection.value.agents, providers, caps, ctx);
    }
  }

  /** Agent `i` is one that adapting stops at. */
  predicate Trouble(agents: seq<Agent>, providers: seq<Provider>, caps: Capabilities, ctx: Context, i: nat)
    requires i < |agents|
  {
    CutOff(ctx, i) || Adapted(agents[i], providers, caps).Err?
  }

  lemma {:induction false} AgentsFail(agents: seq<Agent>, providers: seq<Provider>, caps: Capabilities, ctx: Context)
    ensures var result := AdaptedAgents(agents, providers, caps, ctx);
            if result.Ok? then forall i | 0 <= i < |agents| :: !Trouble(agents, providers, caps, ctx, i)
            else
              exists i | 0 <= i < |agents| :: Trouble(agents, providers, caps, ctx, i)
                && (forall j | 0 <= j < i :: !Trouble(agents, providers, caps, ctx, j))
                && result.error == if CutOff(ctx, i) then Cancelled else NoSuitableModel
  {
    hide Adapted;
    if agents != [] {
      var n := |agents| - 1;
      var front := agents[..n];
      AgentsFail(front, providers, caps, ctx);
      AdaptationErrors(agents[n], providers, caps);
      assert forall i | 0 <= i < n :: Trouble(agents, providers, caps, ctx, i) <==>
          Trouble(front, providers, caps, ctx, i);
      if AdaptedAgents(front, providers, caps, ctx).Ok? && AdaptedAgents(agents, providers, caps, ctx).Err? {
        assert Trouble(agents, providers, caps, ctx, n);
      }
    }
  }

  lemma AdaptationErrors(agent: Agent, providers: seq<Provider>, caps: Capabilities)
    ensures Adapted(agent, providers, caps).Err? ==> Adapted(agent, providers, caps).error == NoSuitableModel
  {
  }

  /** Without any model every agent fails to adapt. */
  lemma NoModelsNoAgent(agent: Agent, providers: seq<Provider>, caps: Capabilities)
    requires Describes(caps, []) && forall p | p in providers :: p.models == []
    ensures Adapted(agent, providers, caps) == Err(NoSuitableModel)
  {
  }

  // ---------------------------------------------------------------- confidence

  lemma CategoriesAre(lowered: string)
    ensures CategoryOf(lowered) == Web <==> lowered in {"web", "webapp", "website"}
    ensures CategoryOf(lowered) == Api <==> lowered in {"api", "microservice", "service"}
    ensures CategoryOf(lowered) == Cli <==> lowered in {"cli", "tool", "command"}
    ensures CategoryOf(lowered) == Data <==> lowered in {"data", "analytics", "ml", "ai"}
  {
  }

  /** The project's category is the preset's. */
  predicate Matches(c: Collection, project: Option<Project>) {
    project.Some? && CategoryOf(project.value.lowered) == c.category
  }

  predicate Plain(c: Collection) {
    c.id != "claude-code-optimized" && c.id != "ollama-local"
  }

  /** The confidence in a preset that is not bound to a provider, by its type: in tenths, and a fifth more when the
      category matches. Demos gain from a demo project and from the cloud, production presets from high-end models,
      which they miss otherwise, and minimal ones from cheap or local models. */
  lemma ConfidenceByType(c: Collection, caps: Capabilities, project: Option<Project>)
    requires Plain(c)
    ensures var match' := if Matches(c, project) then 0.2 else 0.0;
            var demo := project.Some? && project.value.projectType == "demo";
            && (c.presetType.Development? ==> Confidence(c, caps, project) == 0.5 + match')
            && (c.presetType.Production? ==>
                Confidence(c, caps, project) == (if caps.hasHighEnd then 0.7 else 0.3) + match')
            && (c.presetType.Minimal? ==>
                  Confidence(c, caps, project) == (if caps.hasCheap || caps.hasLocal then 0.7 else 0.5) + match')
            && (c.presetType.Demo? && !demo ==>
                Confidence(c, caps, project) == (if caps.hasCloud then 0.6 else 0.5) + match')
            && (c.presetType.Demo? && demo && !caps.hasCloud ==> Confidence(c, caps, project) == 0.8 + match')
            && (c.presetType.Demo? && demo && caps.hasCloud ==>
                  Confidence(c, caps, project) == if Matches(c, project) then 1.0 else 0.9)
  {
    hide CategoryOf;
  }

  function Within(x: real): real {
    if x < 0.0 then 0.0 else if x > 1.0 then 1.0 else x
  }

  /** A preset bound to a provider: the Claude one gains when there is any model and loses when there is none, the
      Ollama one gains when there is a local model and loses when there is none, against the same preset under
      another ID. */
  lemma ConfidenceByProvider(c: Collection, caps: Capabilities, project: Option<Project>)
    requires !c.presetType.Demo?
    ensures var other := Confidence(c.(id := "other"), caps, project);
            && (c.id == "claude-code-optimized" ==>
                  Confidence(c, caps, project) == Within(if caps.hasCloud || caps.hasLocal then other + 0.3
                      else other - 0.4))
            && (c.id == "ollama-local" ==>
                  Confidence(c, caps, project) == Within(if caps.hasLocal then other + 0.3 else other - 0.5))
  {
    hide CategoryOf;
  }

  /** The same for demos of a project that is no demo. */
  lemma DemoConfidenceByProvider(c: Collection, caps: Capabilities, project: Option<Project>)
    requires c.presetType.Demo? && !(project.Some? && project.value.projectType == "demo")
    ensures var other := Confidence(c.(id := "other"), caps, project);
            && (c.id == "claude-code-optimized" ==>
                  Confidence(c, caps, project) == Within(if caps.hasCloud || caps.hasLocal then other + 0.3
                      else other - 0.4))
            && (c.id == "ollama-local" ==>
                  Confidence(c, caps, project) == Within(if caps.hasLocal then other + 0.3 else other - 0.5))
  {
    hide CategoryOf;
  }

  /** A preset is compatible exactly when there are as many models as it needs; an incompatible one gets no
      confidence. */
  lemma CompatibleExactly(c: Collection, caps: Capabilities, project: Option<Project>, models: seq<Selection>)
    requires Describes(caps, models)
    ensures var r := Evaluation(c, caps, project);
            && r.item.collection == c && (r.item.compatible <==> c.minModels <= |models|)
            && (c.minModels > |models| ==> r.confidence == 0.0)
            && (c.minModels <= |models| ==> r.confidence == Confidence(c, caps, project))
  {
  }

  /** A preset is recommended exactly when it has enough models and its confidence is above a tenth. */
  lemma RecommendedExactly(recs: seq<Recommendation>, presets: map<string, Collection>, caps: Capabilities,
                           project: Option<Project>, models: seq<Selection>, id: string)
    requires Recommended(recs, presets, caps, project) && Describes(caps, models) && id in presets
    ensures (exists r | r in recs :: r.item.collection == presets[id]) <==>
            presets[id].minModels <= |models| && Confidence(presets[id], caps, project) > 0.1
  {
    hide Confidence;
    RecommendationsExact(recs, presets, caps, project);
    CompatibleExactly(presets[id], caps, project, models);
    var e := Evaluation(presets[id], caps, project);
    assert e in recs <==> Viable(e);
    if r :| r in recs && r.item.collection == presets[id] {
      var other :| other in presets && r == Evaluation(presets[other], caps, project);
      assert r == e;
    }
  }

  // ---------------------------------------------------------------- demos

  /** The demo chosen from recommendations is the compatible demo of most confidence, and of those the one that comes
      first. */
  lemma {:induction false} DemoChosen(recs: seq<Recommendation>) returns (k: nat)
    requires Descending(recs) && exists r | r in recs :: r.item.compatible && r.item.collection.presetType.Demo?
    ensures k < |recs| && recs[k].item.compatible && recs[k].item.collection.presetType.Demo?
    ensures FirstDemo(recs) == Some(recs[k].item.collection)
    ensures forall i | 0 <= i < |recs| && recs[i].item.compatible && recs[i].item.collection.presetType.Demo? ::
              recs[i].confidence <= recs[k].confidence && k <= i
  {
    if recs[0].item.collection.presetType.Demo? && recs[0].item.compatible {
      k := 0;
    } else {
      var rest := recs[1..];
      assert recs == [recs[0]] + rest;
      var j := DemoChosen(rest);
      k := j + 1;
      assert forall i | 1 <= i < |recs| :: recs[i] == rest[i - 1];
    }
  }

  /** Without a compatible demo among the recommendations the minimal demo is taken, if there is one. */
  lemma NoDemoRecommended(recs: seq<Recommendation>, presets: map<string, Collection>)
    requires !exists r | r in recs :: r.item.compatible && r.item.collection.presetType.Demo?
    ensures DemoChoice(recs, presets) == if "demo-minimal" in presets then Some(presets["demo-minimal"]) else None
  {
    FirstDemoIsRecommended(recs);
  }
}
