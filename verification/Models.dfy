/** Configured providers and the models they offer. */
module Models {

  /** The parts of a model that selection looks at. */
  datatype ModelInfo = ModelInfo(name: string, contextWindow: int, costMagnitude: int, recommended: bool,
      capabilities: seq<string>)

  datatype Provider = Provider(name: string, models: seq<ModelInfo>)

  datatype Selection = Selection(provider: string, model: ModelInfo, available: bool, costEffective: bool)

  /** Go's zero value: nothing selected. */
  const NOTHING: Selection := Selection("", ModelInfo("", 0, 0, false, []), false, false)

  function Select(provider: string, model: ModelInfo): Selection {
    Selection(provider, model, true, model.costMagnitude <= 3)
  }

  function SelectAll(provider: string, models: seq<ModelInfo>): seq<Selection> {
    seq(|models|, i requires 0 <= i < |models| => Select(provider, models[i]))
  }

  /** All configured models, in order. */
  function AllModels(providers: seq<Provider>): seq<Selection> {
    if providers == [] then []
    else AllModels(providers[..|providers| - 1]) + SelectAll(providers[|providers| - 1].name,
        providers[|providers| - 1].models)
  }

  /** `provider` is configured and offers a model called `model`. */
  predicate Configured(providers: seq<Provider>, provider: string, model: string) {
    exists p | p in providers :: p.name == provider && exists m | m in p.models :: m.name == model
  }

  lemma SelectAllMembers(provider: string, models: seq<ModelInfo>, s: Selection)
    ensures s in SelectAll(provider, models) <==> s.model in models && s == Select(provider, s.model)
  {
    if s.model in models && s == Select(provider, s.model) {
      var i :| 0 <= i < |models| && models[i] == s.model;
      assert SelectAll(provider, models)[i] == s;
    }
  }

  lemma {:induction false} AllModelsMembers(providers: seq<Provider>, s: Selection)
    ensures s in AllModels(providers) <==>
        exists p | p in providers :: p.name == s.provider && s.model in p.models && s == Select(p.name, s.model)
  {
    if providers != [] {
      var last := providers[|providers| - 1];
      AllModelsMembers(providers[..|providers| - 1], s);
      assert providers == providers[..|providers| - 1] + [last];
      SelectAllMembers(last.name, last.models, s);
    }
  }

  lemma SelectedIsConfigured(providers: seq<Provider>, s: Selection)
    requires s in AllModels(providers)
    ensures Configured(providers, s.provider, s.model.name)
  {
    AllModelsMembers(providers, s);
  }

  // ---------------------------------------------------------------- choosing in one pass

  /** What a role values in a model, next to its being recommended. */
  datatype Merit = LargeWindow | LowCost {
    function Of(m: Selection): int {
      if LargeWindow? then m.model.contextWindow else -m.model.costMagnitude
    }
  }

  /** More merit or a recommendation is enough to beat a model, so two models may beat each other. */
  predicate Beats(merit: Merit, a: Selection, b: Selection) {
    merit.Of(a) > merit.Of(b) || (a.model.recommended && !b.model.recommended)
  }

  predicate Unbeaten(merit: Merit, models: seq<Selection>, m: Selection) {
    forall other | other in models :: !Beats(merit, other, m)
  }

  /** Of most merit, and recommended if any model is. */
  predicate IsTop(merit: Merit, models: seq<Selection>, u: Selection) {
    && (forall m | m in models :: merit.Of(m) <= merit.Of(u))
    && (u.model.recommended || forall m | m in models :: !m.model.recommended)
  }

  lemma UnbeatenIsTop(merit: Merit, models: seq<Selection>, u: Selection)
    ensures Unbeaten(merit, models, u) <==> IsTop(merit, models, u)
  {
  }

  lemma UnbeatenStays(merit: Merit, all: seq<Selection>, current: Selection, other: Selection)
    requires Unbeaten(merit, all, current) && other in all
    ensures !Beats(merit, other, current)
  {
  }

  /** Whichever model is current when an unbeaten one comes along, an unbeaten one is current afterwards. */
  lemma PassMeetsTop(merit: Merit, models: seq<Selection>, u: Selection, current: Selection)
    requires u in models && current in models && Unbeaten(merit, models, u)
    ensures Unbeaten(merit, models, if Beats(merit, u, current) then u else current)
  {
  }
}
