/** Which default agents there are and which models they get, in plain terms. */
module AgentRoster {
  import opened Outcomes
  import opened Text
  import opened Models
  import opened DefaultAgents

  /** Some capability of the model contains the text in lower case. */
  ghost predicate Can(lower: string -> string, m: Selection, text: string) {
    exists c | c in m.model.capabilities :: exists k :: OccursAt(lower(c), text, k)
  }

  /** What a role asks of a model. */
  ghost predicate Suits(lower: string -> string, m: Selection, role: Role) {
    match role
    case ManagerRole => Can(lower, m, "reasoning") && m.model.contextWindow >= 32000
    case WorkerRole => m.model.costMagnitude <= 3 && Can(lower, m, "coding")
    case CodingRole => Can(lower, m, "coding")
    case CheapRole => true
    case ReasoningRole => Can(lower, m, "reasoning") || Can(lower, m, "analysis")
  }

  lemma CanByContents(lower: string -> string, m: Selection, text: string)
    requires text != ""
    ensures HasCapability(lower, m.model, text) <==> Can(lower, m, text)
  {
    hide Contains, OccursAt;
    forall c | c in m.model.capabilities
      ensures Contains(lower(c), text) <==> exists k :: OccursAt(lower(c), text, k)
    {
      ContainsMeansOccurs(lower(c), text);
    }
  }

  lemma ContainsMeansOccurs(s: string, text: string)
    requires text != ""
    ensures Contains(s, text) <==> exists k :: OccursAt(s, text, k)
  {
    IndexOfIsLeftmost(s, text);
  }

  lemma QualifiesWhenSuits(lower: string -> string, m: Selection, role: Role)
    requires m.costEffective == (m.model.costMagnitude <= 3)
    ensures Qualifies(lower, m, role) <==> Suits(lower, m, role)
  {
    hide HasCapability, Can;
    CanByContents(lower, m, "reasoning");
    CanByContents(lower, m, "coding");
    CanByContents(lower, m, "analysis");
  }

  lemma Affordable(providers: seq<Provider>, m: Selection)
    requires m in AllModels(providers)
    ensures m.available && m.costEffective == (m.model.costMagnitude <= 3)
  {
    AllModelsMembers(providers, m);
  }

  /** The models a role chooses from: those that suit it, in order, or all of them when none does. */
  ghost predicate ChosenFrom(lower: string -> string, all: seq<Selection>, role: Role, m: Selection) {
    m in all && (Suits(lower, m, role) || forall other | other in all :: !Suits(lower, other, role))
  }

  lemma CandidatesAre(lower: string -> string, providers: seq<Provider>, role: Role, m: Selection)
    ensures m in Candidates(lower, AllModels(providers), role) <==> ChosenFrom(lower, AllModels(providers), role, m)
  {
    hide Qualified, AllModels, Suits, Qualifies;
    var all := AllModels(providers);
    forall x | x in all ensures Qualifies(lower, x, role) <==> Suits(lower, x, role) {
      Affordable(providers, x);
      QualifiesWhenSuits(lower, x, role);
    }
    forall x ensures x in Qualified(lower, all, role) <==> x in all && Qualifies(lower, x, role) {
      QualifiedMembers(lower, all, role, x);
    }
    if Qualified(lower, all, role) != [] {
      assert Qualified(lower, all, role)[0] in Qualified(lower, all, role);
    }
  }

  /** A role's model is one it chooses from: one that suits it whenever any does. */
  lemma RoleGetsSuitable(lower: string -> string, providers: seq<Provider>, role: Role)
    requires AllModels(providers) != []
    ensures ChosenFrom(lower, AllModels(providers), role, BestFor(lower, AllModels(providers), role))
  {
    hide Candidates, Winner, AllModels, ChosenFrom;
    CandidatesAre(lower, providers, role, BestFor(lower, AllModels(providers), role));
  }

  /** The manager and the reasoning specialist get the model with the largest window among those they choose from
      that is also recommended, or with the largest window when none is recommended, whenever there is such a model. */
  lemma LargestWindowWins(lower: string -> string, providers: seq<Provider>, role: Role, u: Selection)
    requires role in {ManagerRole, ReasoningRole} && ChosenFrom(lower, AllModels(providers), role, u)
    requires forall m | ChosenFrom(lower, AllModels(providers), role, m) ::
               m.model.contextWindow <= u.model.contextWindow && (u.model.recommended || !m.model.recommended)
    ensures var best := BestFor(lower, AllModels(providers), role);
            best.model.contextWindow == u.model.contextWindow && best.model.recommended == u.model.recommended
  {
    hide AllModels, ChosenFrom, Winner, Candidates;
    TopWins(lower, providers, role, u);
  }

  /** The worker gets the cheapest of the models it chooses from that is also recommended, or the cheapest when none is
      recommended, whenever there is such a model. */
  lemma LeastCostWins(lower: string -> string, providers: seq<Provider>, u: Selection)
    requires ChosenFrom(lower, AllModels(providers), WorkerRole, u)
    requires forall m | ChosenFrom(lower, AllModels(providers), WorkerRole, m) ::
               m.model.costMagnitude >= u.model.costMagnitude && (u.model.recommended || !m.model.recommended)
    ensures var best := BestFor(lower, AllModels(providers), WorkerRole);
            best.model.costMagnitude == u.model.costMagnitude && best.model.recommended == u.model.recommended
  {
    hide AllModels, ChosenFrom, Winner, Candidates;
    TopWins(lower, providers, WorkerRole, u);
  }

  lemma TopWins(lower: string -> string, providers: seq<Provider>, role: Role, u: Selection)
    requires role in {ManagerRole, WorkerRole, ReasoningRole} && ChosenFrom(lower, AllModels(providers), role, u)
    requires forall m | ChosenFrom(lower, AllModels(providers), role, m) ::
               MeritFor(role).Of(m) <= MeritFor(role).Of(u) && (u.model.recommended || !m.model.recommended)
    ensures var best := BestFor(lower, AllModels(providers), role);
            MeritFor(role).Of(best) == MeritFor(role).Of(u) && best.model.recommended == u.model.recommended
  {
    hide AllModels, ChosenFrom, Winner, Candidates, BetterForRole;
    var all := AllModels(providers);
    var candidates := Candidates(lower, all, role);
    forall m ensures m in candidates <==> ChosenFrom(lower, all, role, m) {
      CandidatesAre(lower, providers, role, m);
    }
    InAll(lower, all, role, u);
    assert IsTop(MeritFor(role), candidates, u);
    UnbeatenWinnerExactly(role, candidates);
    var best := Winner(candidates, role);
    assert best in candidates && u in candidates;
    BetterBeats(role, u, best);
    BetterBeats(role, best, u);
  }

  lemma InAll(lower: string -> string, all: seq<Selection>, role: Role, u: Selection)
    requires ChosenFrom(lower, all, role, u)
    ensures u in all && all != []
  {
  }

  // ---------------------------------------------------------------- the agents

  /** Agent `g` has this ID and kind and runs on model `m`. */
  predicate RunsOn(g: AgentSpec, id: string, kind: string, m: Selection) {
    g == AgentSpec(id, kind, m.provider, m.model.name, m.model.costMagnitude, m.model.contextWindow)
  }

  /** Good enough for specialists. */
  predicate Good(m: Selection) {
    m.model.recommended || m.model.costMagnitude >= 3
  }

  predicate SameModel(a: Selection, b: Selection) {
    a.provider == b.provider && a.model.name == b.model.name
  }

  /** What `CreateDefaultAgents` says of the set it returns. */
  ghost predicate IsDefaultSet(lower: string -> string, providers: seq<Provider>, a: Analysis, agents: seq<AgentSpec>) {
    && AllModels(providers) != [] && Analyzed(lower, AllModels(providers), a)
    && exists specialists :: Specialists(a, specialists) && agents ==
         [Spec("manager", "manager", BestFor(lower, AllModels(providers), ManagerRole))]
         + Workers(AllModels(providers), BestFor(lower, AllModels(providers), WorkerRole)) + specialists
  }

  /** The manager comes first and the primary worker second, on the models chosen for their roles. A secondary worker
      follows exactly when there is another model in the second place, or else in the third, and runs on it. */
  lemma ManagerAndWorkers(lower: string -> string, providers: seq<Provider>, a: Analysis, agents: seq<AgentSpec>)
    requires IsDefaultSet(lower, providers, a, agents)
    ensures var all := AllModels(providers);
            var primary := BestFor(lower, all, WorkerRole);
            && |agents| >= 2
            && RunsOn(agents[0], "manager", "manager", BestFor(lower, all, ManagerRole))
            && RunsOn(agents[1], "primary-artisan", "worker", primary)
            && (|all| >= 2 && !SameModel(all[1], primary) ==>
                  |agents| >= 3 && RunsOn(agents[2], "secondary-artisan", "worker", all[1]))
            && (|all| >= 3 && SameModel(all[1], primary) ==>
                  |agents| >= 3 && RunsOn(agents[2], "secondary-artisan", "worker", all[2]))
            && (|all| == 1 || (|all| == 2 && SameModel(all[1], primary)) ==>
                  forall i | 0 <= i < |agents| :: agents[i].id != "secondary-artisan")
  {
    hide AllModels, BestFor, LocalSpecialist;
    var specialists :| Specialists(a, specialists) && agents ==
      [Spec("manager", "manager", BestFor(lower, AllModels(providers), ManagerRole))]
      + Workers(AllModels(providers), BestFor(lower, AllModels(providers), WorkerRole)) + specialists;
    SpecialistIds(a, specialists);
    var n := |agents| - |specialists|;
    assert forall i | n <= i < |agents| :: agents[i] == specialists[i - n];
  }

  lemma SpecialistIds(a: Analysis, s: seq<AgentSpec>)
    requires Specialists(a, s)
    ensures forall g | g in s :: g.id in {"code-specialist", "analysis-specialist", "local-artisan"}
  {
  }

  /** The local specialist, there exactly when some model costs nothing, runs on the first such model. */
  ghost predicate LocalOn(all: seq<Selection>, local: seq<AgentSpec>) {
    && |local| == (if exists m | m in all :: m.model.costMagnitude == 0 then 1 else 0)
    && (local != [] ==>
          exists k | 0 <= k < |all| :: all[k].model.costMagnitude == 0
            && RunsOn(local[0], "local-artisan", "specialist", all[k])
            && forall i | 0 <= i < k :: all[i].model.costMagnitude != 0)
  }

  /** The analyst, there exactly when its model costs 2 or more. */
  predicate AnalystOn(reasoning: Selection, analyst: seq<AgentSpec>) {
    && |analyst| == (if reasoning.model.costMagnitude >= 2 then 1 else 0)
    && (analyst != [] ==> RunsOn(analyst[0], "analysis-specialist", "specialist", reasoning))
  }

  lemma LocalSpecialistIs(a: Analysis, local: seq<AgentSpec>)
    requires LocalSpecialist(a, local) && (a.hasLocal <==> exists m | m in a.allModels :: m.model.costMagnitude == 0)
    ensures LocalOn(a.allModels, local)
  {
  }

  lemma AnalystIs(a: Analysis)
    requires a.bestReasoning.available
    ensures AnalystOn(a.bestReasoning, if a.bestReasoning.available && a.bestReasoning.model.costMagnitude >= 2
                                       then [Spec("analysis-specialist", "specialist", a.bestReasoning)] else [])
  {
  }

  /** Specialists come last, in this order, and only if some model is good enough: the coder always, the analyst and the
      local one under their conditions. */
  lemma SpecialistsExactly(lower: string -> string, providers: seq<Provider>, a: Analysis, s: seq<AgentSpec>)
    requires AllModels(providers) != [] && Analyzed(lower, AllModels(providers), a) && Specialists(a, s)
    ensures var all := AllModels(providers);
            if !exists m | m in all :: Good(m) then s == []
            else
              exists coder, analyst, local :: s == [coder] + analyst + local
                && RunsOn(coder, "code-specialist", "specialist", BestFor(lower, all, CodingRole))
                && AnalystOn(BestFor(lower, all, ReasoningRole), analyst) && LocalOn(all, local)
  {
    hide AllModels, BestFor, LocalSpecialist, AnalystOn, LocalOn, HighQuality, Good;
    var all := AllModels(providers);
    AnalysisUsesModels(lower, providers, a);
    SameGoodness(all);
    if exists m | m in all :: Good(m) {
      var analyst := if a.bestReasoning.available && a.bestReasoning.model.costMagnitude >= 2
                     then [Spec("analysis-specialist", "specialist", a.bestReasoning)] else [];
      var coder := Spec("code-specialist", "specialist", a.bestCoding);
      var local: seq<AgentSpec> :| s == [coder] + analyst + local && LocalSpecialist(a, local);
      LocalSpecialistIs(a, local);
      AnalystIs(a);
    }
  }

  lemma SameGoodness(all: seq<Selection>)
    ensures forall m | m in all :: Good(m) <==> HighQuality(m)
  {
  }
}
