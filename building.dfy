/**
 * The loops that fill a node's dictionaries while the cache is built: the
 * content of the node, its biomes, and the effects the towers around it
 * apply.  Each is proved to compute the rule of the same name in Records.
 */
module Building {
  import opened Wrappers
  import opened Text
  import opened Codecs
  import opened Definitions
  import opened Effects
  import opened Records

  // ---------------------------------------------------------------------
  // Content and biomes
  // ---------------------------------------------------------------------

  /** CacheNewMapNode's content: the Corruption start, then every content
      name that has a content type, under the type's own name. */
  method CollectContent(contentTypes: map<string, Content>, corrupted: bool, names: seq<string>)
    returns (content: map<string, Content>)
    ensures content == NewContent(CorruptionContent(contentTypes, corrupted), contentTypes, names)
  {
    content := map[];
    if corrupted && "Corruption" in contentTypes {
      var corruption := contentTypes["Corruption"];
      content := content[corruption.name := corruption];
    }
    ghost var start := content;
    var i := 0;
    while i < |names|
      invariant 0 <= i <= |names|
      invariant content == NewContent(start, contentTypes, names[..i])
    {
      assert names[..i + 1][..i] == names[..i];
      var n := names[i];
      if n != "" && n in contentTypes {
        var def := contentTypes[n];
        if def.name !in content {
          content := content[def.name := def];
        }
      }
      i := i + 1;
    }
    assert names[..i] == names;
  }

  /** RefreshCachedMapNode's content: the Corruption start, then every
      non-empty content name under itself; a name without a content type
      stops the loop and is returned. */
  method RefreshContent(contentTypes: map<string, Content>, corrupted: bool, names: seq<string>)
    returns (content: map<string, Content>, missing: Option<string>)
    ensures (content, missing) == RefreshedContent(CorruptionContent(contentTypes, corrupted), contentTypes, names)
  {
    content := map[];
    if corrupted && "Corruption" in contentTypes {
      var corruption := contentTypes["Corruption"];
      content := content[corruption.name := corruption];
    }
    ghost var start := content;
    missing := None;
    var i := 0;
    while i < |names|
      invariant 0 <= i <= |names|
      invariant (content, None) == RefreshedContent(start, contentTypes, names[..i])
    {
      assert names[..i + 1][..i] == names[..i];
      var n := names[i];
      if n != "" {
        if n !in contentTypes {
          missing := Some(n);
          SkipRest(start, contentTypes, names, i + 1);
          return;
        }
        if n !in content {
          content := content[n := contentTypes[n]];
        }
      }
      i := i + 1;
    }
    assert names[..i] == names;
  }

  /** Once a name is missing, the names after it change nothing. */
  lemma {:induction false} SkipRest(start: map<string, Content>, contentTypes: map<string, Content>, names: seq<string>, i: nat)
    requires i <= |names|
    requires RefreshedContent(start, contentTypes, names[..i]).1.Some?
    ensures RefreshedContent(start, contentTypes, names) == RefreshedContent(start, contentTypes, names[..i])
    decreases |names| - i
  {
    if i < |names| {
      assert names[..i + 1][..i] == names[..i];
      SkipRest(start, contentTypes, names, i + 1);
    } else {
      assert names[..i] == names;
    }
  }

  /** CacheNewMapNode's biomes: every name with a biome definition, under the
      definition's own name. */
  method CollectBiomes(biomes: map<string, Biome>, names: seq<string>) returns (r: map<string, Biome>)
    ensures r == NewBiomes(biomes, names)
  {
    r := map[];
    var i := 0;
    while i < |names|
      invariant 0 <= i <= |names|
      invariant r == NewBiomes(biomes, names[..i])
    {
      assert names[..i + 1][..i] == names[..i];
      var n := names[i];
      if n in biomes {
        var b := biomes[n];
        if b.name !in r {
          r := r[b.name := b];
        }
      }
      i := i + 1;
    }
    assert names[..i] == names;
  }

  /** The biome names of the map type under the map id, in order, without
      the empty ones. */
  method BiomeNamesOf(t: Tables, mapId: string) returns (names: seq<string>)
    ensures names == BiomeNames(t, mapId)
  {
    names := [];
    if mapId in t.maps {
      var all := t.maps[mapId].biomes;
      var i := 0;
      while i < |all|
        invariant 0 <= i <= |all|
        invariant names == NonEmpty(all[..i])
      {
        assert all[..i + 1][..i] == all[..i];
        if all[i] != "" {
          names := names + [all[i]];
        }
        i := i + 1;
      }
      assert all[..i] == all;
    }
  }

  // ---------------------------------------------------------------------
  // Tower effects
  // ---------------------------------------------------------------------

  /** No effect object sits under two keys. */
  ghost predicate Distinct(es: map<string, Effect>) {
    forall j, k | j in es && k in es && j != k :: es[j] != es[k]
  }

  /** A repeated contribution: Value1 += value through the setter (when
      accumulate holds; C# int addition wraps), then Sources.Add. */
  method AddToEffect(e: Effect, c: Contribution, accumulate: bool)
    modifies e`value1, e`changes, e`sources
    ensures TallyOf(e) == old(TallyOf(e)).(value1 := if accumulate then WrapInt32(old(e.value1) + c.value) else old(e.value1),
                                           sources := old(e.sources) + [c.source])
  {
    if accumulate {
      e.SetValue1(WrapInt32(e.value1 + c.value));
    }
    e.AddSource(c.source);
  }

  /** A first contribution: the object initialiser of the new effect, which
      runs the setters of Name, Description, Value1, ID, Enabled and Sources
      in that order. */
  method NewEffect(c: Contribution, m: ModInfo, content: set<string>, onlyApplicable: bool) returns (e: Effect)
    ensures fresh(e)
    ensures TallyOf(e) == NewTally(c, m, content, onlyApplicable)
  {
    var enabled := ShownFor(m, content, onlyApplicable);
    e := new Effect();
    e.SetName(m.name);
    e.SetDescription(m.description);
    e.SetValue1(c.value);
    e.SetId(c.modId);
    e.SetEnabled(enabled);
    e.SetSources([c.source]);
  }

  /** One contribution, as the effect loops apply it: only the effect under
      the contribution's key is touched, or a new one is added. */
  method AddContribution(es: map<string, Effect>, c: Contribution, accumulate: bool,
                         mods: map<string, ModInfo>, content: set<string>, onlyApplicable: bool)
    returns (es': map<string, Effect>)
    requires Distinct(es)
    modifies es.Values
    ensures Distinct(es')
    ensures EffectState(es') == Contribute(old(EffectState(es)), c, accumulate, mods, content, onlyApplicable)
    ensures fresh(es'.Values - es.Values)
  {
    ghost var before := EffectState(es);
    es' := es;
    if c.key in es {
      var e := es[c.key];
      AddToEffect(e, c, accumulate);
      assert forall k | k in es && k != c.key :: es[k] != e;
      assert EffectState(es) == before[c.key := TallyOf(e)];
    } else if c.key in mods {
      var e := NewEffect(c, mods[c.key], content, onlyApplicable);
      es' := es[c.key := e];
      assert EffectState(es') == before[c.key := TallyOf(e)];
    }
  }

  /** One effect of a tower, applied when it counts. */
  method AddEffect(es: map<string, Effect>, e: SourceEffect, source: Vector2i, accumulate: bool,
                   mods: map<string, ModInfo>, content: set<string>, onlyApplicable: bool)
    returns (es': map<string, Effect>)
    requires Distinct(es)
    modifies es.Values
    ensures Distinct(es')
    ensures EffectState(es') == if Counts(e, mods)
      then Contribute(old(EffectState(es)), ContributionOf(e, source), accumulate, mods, content, onlyApplicable)
      else old(EffectState(es))
    ensures fresh(es'.Values - es.Values)
  {
    es' := es;
    if Counts(e, mods) {
      es' := AddContribution(es, ContributionOf(e, source), accumulate, mods, content, onlyApplicable);
    }
  }

  /** The effects of one tower, applied one after another. */
  method AddSourceEffects(es: map<string, Effect>, source: EffectSource, accumulate: bool,
                          mods: map<string, ModInfo>, content: set<string>, onlyApplicable: bool)
    returns (es': map<string, Effect>)
    requires Distinct(es)
    modifies es.Values
    ensures Distinct(es')
    ensures EffectState(es') == Apply(old(EffectState(es)), SourceContributions(source.coordinate, source.effects, mods),
                                      accumulate, mods, content, onlyApplicable)
    ensures fresh(es'.Values - es.Values)
  {
    es' := es;
    ghost var start := old(EffectState(es));
    var effects := source.effects;
    var j := 0;
    while j < |effects|
      invariant 0 <= j <= |effects|
      invariant Distinct(es')
      invariant fresh(es'.Values - es.Values)
      invariant EffectState(es') == Apply(start, SourceContributions(source.coordinate, effects[..j], mods),
                                          accumulate, mods, content, onlyApplicable)
    {
      SourceContributionsStep(start, source.coordinate, effects, j, accumulate, mods, content, onlyApplicable);
      es' := AddEffect(es', effects[j], source.coordinate, accumulate, mods, content, onlyApplicable);
      j := j + 1;
    }
    assert effects[..j] == effects;
  }

  /** The effects of one tower when it lies within radius 11. */
  method AddNearby(es: map<string, Effect>, source: EffectSource, at: Vector2i, accumulate: bool,
                   mods: map<string, ModInfo>, content: set<string>, onlyApplicable: bool)
    returns (es': map<string, Effect>)
    requires Distinct(es)
    modifies es.Values
    ensures Distinct(es')
    ensures EffectState(es') == if WithinRadius(source.coordinate, at)
      then Apply(old(EffectState(es)), SourceContributions(source.coordinate, source.effects, mods), accumulate, mods, content, onlyApplicable)
      else old(EffectState(es))
    ensures fresh(es'.Values - es.Values)
  {
    es' := es;
    if WithinRadius(source.coordinate, at) {
      es' := AddSourceEffects(es, source, accumulate, mods, content, onlyApplicable);
    }
  }

  /** The effect loop of CacheNewMapNode and RefreshCachedMapNode: a new
      dictionary holding, for every tower within radius 11, each of its
      counting effects.  Every effect in it is new and sits under one key. */
  method BuildEffects(sources: seq<EffectSource>, at: Vector2i, accumulate: bool,
                      mods: map<string, ModInfo>, content: set<string>, onlyApplicable: bool)
    returns (es: map<string, Effect>)
    ensures Distinct(es)
    ensures fresh(es.Values)
    ensures EffectState(es) == Apply(map[], Contributions(sources, at, mods), accumulate, mods, content, onlyApplicable)
  {
    es := map[];
    var i := 0;
    while i < |sources|
      invariant 0 <= i <= |sources|
      invariant Distinct(es)
      invariant fresh(es.Values)
      invariant EffectState(es) == Apply(map[], Contributions(sources[..i], at, mods), accumulate, mods, content, onlyApplicable)
    {
      ContributionsStep(sources, i, at, accumulate, mods, content, onlyApplicable);
      es := AddNearby(es, sources[i], at, accumulate, mods, content, onlyApplicable);
      i := i + 1;
    }
    assert sources[..i] == sources;
  }
}
