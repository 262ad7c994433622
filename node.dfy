/**
 * Node: the cached state of one atlas node (its flags, map type, content,
 * biomes, tower effects, neighbours and weight), and the waypoint record it
 * produces.
 */
module Nodes {
  import opened Wrappers
  import opened Text
  import opened Codecs
  import opened Collections
  import opened Definitions
  import opened Effects

  /** The icon a waypoint is drawn with: the enum default, or the one the
      atlas scoring assigns. */
  datatype Icon = DefaultIcon | LootFilterLargeWhiteUpsideDownHouse

  /** A saved waypoint: the properties a Node sets, and the default of every
      other one. */
  datatype Waypoint = Waypoint(
    id: string, name: string, text: string,
    show: bool, line: bool, arrow: bool, scale: real,
    coordinates: Vector2i, icon: Icon, color: Option<Color>, address: int)

  class Node {
    var name: string
    var id: string
    var isUnlocked: bool
    var isVisible: bool
    var isActive: bool
    var isVisited: bool
    var isWaypoint: bool
    var neighborCoordinates: (Vector2i, Vector2i, Vector2i, Vector2i)
    /** Set once, when the node is cached. */
    const coordinates: Vector2i
    var neighbors: map<Vector2i, Node>
    var biomes: map<string, Biome>
    var content: map<string, Content>
    var mapType: Map
    var weight: real
    var effects: map<string, Effect>
    var drawTowers: bool
    var address: int
    var parentAddress: int

    /** The object initialiser of CacheNewMapNode; the dictionaries start
        empty and the remaining properties at their defaults. */
    constructor(coordinates: Vector2i, name: string, id: string,
                isUnlocked: bool, isVisible: bool, isVisited: bool, isActive: bool,
                parentAddress: int, address: int, mapType: Map)
      ensures this.coordinates == coordinates && this.name == name && this.id == id
      ensures this.isUnlocked == isUnlocked && this.isVisible == isVisible
      ensures this.isVisited == isVisited && this.isActive == isActive && !isWaypoint
      ensures this.parentAddress == parentAddress && this.address == address
      ensures this.mapType == mapType
      ensures neighbors == map[] && biomes == map[] && content == map[] && effects == map[]
      ensures neighborCoordinates == (Origin, Origin, Origin, Origin)
      ensures weight == 0.0 && !drawTowers
    {
      this.coordinates := coordinates;
      this.name := name;
      this.id := id;
      this.isUnlocked := isUnlocked;
      this.isVisible := isVisible;
      this.isVisited := isVisited;
      this.isActive := isActive;
      isWaypoint := false;
      neighborCoordinates := (Origin, Origin, Origin, Origin);
      neighbors := map[];
      biomes := map[];
      content := map[];
      this.mapType := mapType;
      weight := 0.0;
      effects := map[];
      drawTowers := false;
      this.address := address;
      this.parentAddress := parentAddress;
    }

    /** IsFailed: locked but visited. */
    predicate IsFailed()
      reads this`isUnlocked, this`isVisited
    {
      !isUnlocked && isVisited
    }

    /** IsAttempted: the same condition as IsFailed. */
    predicate IsAttempted()
      reads this`isUnlocked, this`isVisited
    {
      !isUnlocked && isVisited
    }

    /** IsTower: the map type is one of the tower maps. */
    predicate IsTower()
      reads this`mapType, mapType`ids
    {
      mapType.IsTower()
    }

    /** ToWaypoint: a shown waypoint carrying the node's name, id, address
        and coordinates. */
    function ToWaypoint(): (w: Waypoint)
      reads this`name, this`id, this`address
      ensures w.name == name && w.id == id && w.address == address
      ensures w.coordinates == coordinates && w.show
      ensures w.icon == DefaultIcon && w.color == None && w.scale == 1.0
    {
      Waypoint(id, name, "", true, false, false, 1.0, coordinates, DefaultIcon, None, address)
    }

    /** GetNeighborCoordinates: the four neighbour coordinates in order. */
    function GetNeighborCoordinates(): (r: seq<Vector2i>)
      reads this`neighborCoordinates
      ensures |r| == 4
      ensures r[0] == neighborCoordinates.0 && r[1] == neighborCoordinates.1
      ensures r[2] == neighborCoordinates.2 && r[3] == neighborCoordinates.3
    {
      [neighborCoordinates.0, neighborCoordinates.1, neighborCoordinates.2, neighborCoordinates.3]
    }

    /** The weight RecalculateWeight computes: 500 for a visited node, and
        otherwise the map type's weight plus the weight of every effect,
        content and biome of the node. */
    ghost function ComputedWeight(): real
      reads this`isVisited, this`isUnlocked, this`mapType, mapType`weight
      reads this`effects, effects.Values`weight, this`content, content.Values`weight
      reads this`biomes, biomes.Values`weight
    {
      if isVisited || (isVisited && !isUnlocked) then 500.0
      else UnvisitedWeight(mapType.weight, effects, content, biomes)
    }

    /** RecalculateWeight: recomputes every effect's weight and sums the
        weights into the node's weight, in the order map type, effects,
        content, biomes. */
    method RecalculateWeight(mods: map<string, Mod>)
      modifies this`weight, effects.Values`weight, effects.Values`changes
      ensures weight == ComputedWeight()
      ensures isVisited ==> weight == 500.0
      ensures !isVisited ==> Recomputed(effects, mods)
      ensures EffectState(effects) == old(EffectState(effects))
    {
      if isVisited || (isVisited && !isUnlocked) {
        weight := 500.0;
        return;
      }
      var es, cs, bs, start := effects, content, biomes, mapType.weight;
      var total := Accumulate(start, es, cs, bs, mods);
      StoreWeight(total, mods);
    }

    /** The assignment that ends RecalculateWeight, which changes nothing the
        weight is computed from. */
    method StoreWeight(w: real, ghost mods: map<string, Mod>)
      modifies this`weight
      ensures weight == w
      ensures ComputedWeight() == old(ComputedWeight())
      ensures Recomputed(effects, mods) == old(Recomputed(effects, mods))
      ensures EffectState(effects) == old(EffectState(effects))
    {
      weight := w;
    }
  }

  /** The weight each effect carries. */
  ghost function EffectWeights(es: map<string, Effect>): (r: map<string, real>)
    reads es.Values`weight
  {
    map k | k in es :: es[k].weight
  }

  /** The weight of each content entry. */
  ghost function ContentWeights(cs: map<string, Content>): (r: map<string, real>)
    reads cs.Values`weight
  {
    map k | k in cs :: cs[k].weight
  }

  /** The weight of each biome entry. */
  ghost function BiomeWeights(bs: map<string, Biome>): (r: map<string, real>)
    reads bs.Values`weight
  {
    map k | k in bs :: bs[k].weight
  }

  /** The weight of an unvisited node: its map type's weight plus the
      weights its effects, content and biomes carry. */
  ghost function UnvisitedWeight(start: real, es: map<string, Effect>, cs: map<string, Content>,
                                 bs: map<string, Biome>): real
    reads es.Values`weight, cs.Values`weight, bs.Values`weight
  {
    start + Sum(EffectWeights(es)) + Sum(ContentWeights(cs)) + Sum(BiomeWeights(bs))
  }

  /** The weight each effect is due: what Effect.RecalculateWeight
      assigns. */
  ghost function DueWeights(es: map<string, Effect>, mods: map<string, Mod>): (r: map<string, real>)
    reads es.Values`enabled, es.Values`id, es.Values`value1, mods.Values`weight
  {
    map k | k in es :: es[k].WeightFor(mods)
  }

  /** Every effect carries the weight it is due. */
  ghost predicate Recomputed(es: map<string, Effect>, mods: map<string, Mod>)
    reads es.Values`weight, es.Values`enabled, es.Values`id, es.Values`value1, mods.Values`weight
  {
    forall k | k in es :: es[k].weight == es[k].WeightFor(mods)
  }

  /** The three loops of RecalculateWeight added to the map type's weight,
      in the source's order: the effects first, then the content, then the
      biomes. */
  method Accumulate(start: real, es: map<string, Effect>, cs: map<string, Content>, bs: map<string, Biome>,
                    mods: map<string, Mod>) returns (total: real)
    modifies es.Values`weight, es.Values`changes
    ensures total == UnvisitedWeight(start, es, cs, bs)
    ensures Recomputed(es, mods)
  {
    var fromEffects := RecalculateEffects(es, mods);
    var rest := SumRest(cs, bs);
    total := start + fromEffects + rest;
  }

  /** The content loop and the biome loop of RecalculateWeight. */
  method SumRest(cs: map<string, Content>, bs: map<string, Biome>) returns (total: real)
    ensures total == Sum(ContentWeights(cs)) + Sum(BiomeWeights(bs))
  {
    var fromContent := SumContent(cs);
    var fromBiomes := SumBiomes(bs);
    total := fromContent + fromBiomes;
  }

  /** The effects loop of RecalculateWeight: each effect's weight is
      recomputed, then added. */
  method RecalculateEffects(es: map<string, Effect>, mods: map<string, Mod>) returns (total: real)
    modifies es.Values`weight, es.Values`changes
    ensures total == Sum(EffectWeights(es))
    ensures Recomputed(es, mods)
    ensures EffectState(es) == old(EffectState(es))
  {
    total := 0.0;
    var todo := es.Keys;
    ghost var done: map<string, real> := map[];
    while todo != {}
      invariant todo <= es.Keys
      invariant done.Keys == es.Keys - todo
      invariant Recalculated(es, done, mods)
      invariant total == Sum(done)
      invariant EffectState(es) == old(EffectState(es))
      decreases |todo|
    {
      var k :| k in todo;
      var w := RecalculateOne(es, k, es[k], mods, done);
      SumAdd(done, k, w);
      total := total + w;
      done := done[k := w];
      todo := todo - {k};
    }
    RecalculatedWeights(es, mods, done);
  }

  /** Every entry of done is the weight its effect now carries, and the
      weight its effect is due. */
  ghost predicate Recalculated(es: map<string, Effect>, done: map<string, real>, mods: map<string, Mod>)
    reads es.Values`weight, es.Values`enabled, es.Values`id, es.Values`value1, mods.Values`weight
  {
    forall k | k in done :: k in es && done[k] == es[k].weight == es[k].WeightFor(mods)
  }

  /** One step of the effects loop: the effect under key k is recalculated
      and its new weight returned. */
  method RecalculateOne(es: map<string, Effect>, k: string, effect: Effect, mods: map<string, Mod>,
                        ghost done: map<string, real>) returns (w: real)
    requires k in es && es[k] == effect && k !in done
    requires Recalculated(es, done, mods)
    modifies effect`weight, effect`changes
    ensures w == effect.weight == effect.WeightFor(mods)
    ensures Recalculated(es, done[k := w], mods)
    ensures EffectState(es) == old(EffectState(es))
  {
    effect.RecalculateWeight(mods);
    w := effect.weight;
  }

  /** Once every effect is recalculated, the weights collected are the
      weights the effects are due. */
  lemma RecalculatedWeights(es: map<string, Effect>, mods: map<string, Mod>, done: map<string, real>)
    requires done.Keys == es.Keys
    requires Recalculated(es, done, mods)
    ensures done == EffectWeights(es)
    ensures Recomputed(es, mods)
  {
    SameWeights(done, EffectWeights(es));
  }

  /** The content loop of RecalculateWeight. */
  method SumContent(cs: map<string, Content>) returns (total: real)
    ensures total == Sum(ContentWeights(cs))
  {
    total := 0.0;
    var todo := cs.Keys;
    ghost var counted: map<string, real> := map[];
    while todo != {}
      invariant todo <= cs.Keys
      invariant counted.Keys == cs.Keys - todo
      invariant forall k | k in counted :: counted[k] == cs[k].weight
      invariant total == Sum(counted)
      decreases |todo|
    {
      var k :| k in todo;
      SumAdd(counted, k, cs[k].weight);
      total := total + cs[k].weight;
      counted := counted[k := cs[k].weight];
      todo := todo - {k};
    }
    SameWeights(counted, ContentWeights(cs));
  }

  /** The biome loop of RecalculateWeight. */
  method SumBiomes(bs: map<string, Biome>) returns (total: real)
    ensures total == Sum(BiomeWeights(bs))
  {
    total := 0.0;
    var todo := bs.Keys;
    ghost var added: map<string, real> := map[];
    while todo != {}
      invariant todo <= bs.Keys
      invariant added.Keys == bs.Keys - todo
      invariant forall k | k in added :: added[k] == bs[k].weight
      invariant total == Sum(added)
      decreases |todo|
    {
      var k :| k in todo;
      SumAdd(added, k, bs[k].weight);
      total := total + bs[k].weight;
      added := added[k := bs[k].weight];
      todo := todo - {k};
    }
    SameWeights(added, BiomeWeights(bs));
  }

  /** Two weight tables with the same keys and the same entries are equal. */
  lemma SameWeights(a: map<string, real>, b: map<string, real>)
    requires a.Keys == b.Keys
    requires forall k | k in a :: a[k] == b[k]
    ensures a == b
  {
  }

  /** Once the effects are recomputed, the weights they carry are the
      weights they are due. */
  lemma RecomputedWeights(es: map<string, Effect>, mods: map<string, Mod>)
    requires Recomputed(es, mods)
    ensures EffectWeights(es) == DueWeights(es, mods)
  {
    SameWeights(EffectWeights(es), DueWeights(es, mods));
  }

  /** After RecalculateWeight an unvisited node weighs its map type plus
      what each effect is due plus its content and biome weights. */
  lemma RecalculatedNodeWeight(n: Node, mods: map<string, Mod>)
    requires !n.isVisited && Recomputed(n.effects, mods)
    ensures n.ComputedWeight()
         == n.mapType.weight + Sum(DueWeights(n.effects, mods)) + Sum(ContentWeights(n.content)) + Sum(BiomeWeights(n.biomes))
  {
    RecomputedWeights(n.effects, mods);
  }

  /** A failed node and an attempted node are the same thing. */
  lemma AttemptedIsFailed(n: Node)
    ensures n.IsAttempted() == n.IsFailed()
    ensures n.IsFailed() <==> n.isVisited && !n.isUnlocked
  {
  }

  /** A node with no effects, content or biomes weighs what its map type
      weighs, unless it is visited. */
  lemma BareNodeWeighsItsMapType(n: Node)
    requires !n.isVisited && n.effects == map[] && n.content == map[] && n.biomes == map[]
    ensures n.ComputedWeight() == n.mapType.weight
  {
    assert EffectWeights(n.effects) == map[];
    assert ContentWeights(n.content) == map[];
    assert BiomeWeights(n.biomes) == map[];
  }
}
