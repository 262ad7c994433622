/**
 * What the cache operations leave a node as, stated on values: the map
 * type, content and biomes the tables give a record, and the node built
 * or refreshed from a record and those values.
 */
module Placement {
  import opened Wrappers
  import opened Text
  import opened Codecs
  import opened Collections
  import opened Definitions
  import opened Effects
  import opened Nodes
  import opened Records

  // ---------------------------------------------------------------------
  // What a node is built from
  // ---------------------------------------------------------------------

  /** The state of a new Map(): no name, ids or biomes, weight 1. */
  ghost predicate DefaultMap(m: Map)
    reads m`name, m`id, m`ids, m`biomes, m`weight
  {
    m.name == "" && m.id == "" && m.ids == [] && m.biomes == [] && m.weight == 1.0
  }

  /** The map type the lookup found, or a default map when it found none. */
  ghost predicate MapTypeIs(m: Map, found: Option<Map>)
    reads m`name, m`id, m`ids, m`biomes, m`weight
  {
    match found
    case Some(x) => m == x
    case None => DefaultMap(m)
  }

  /** The effects the towers give a node: the contributions applied to an
      empty dictionary. */
  function TowerEffects(sources: seq<EffectSource>, at: Vector2i, accumulate: bool,
                        mods: map<string, ModInfo>, content: set<string>, onlyApplicable: bool): map<string, Tally>
  {
    Apply(map[], Contributions(sources, at, mods), accumulate, mods, content, onlyApplicable)
  }

  /** The content CacheNewMapNode gives an unvisited node. */
  function ContentOf(r: NodeRecord, t: Tables): map<string, Content>
    reads t.contentTypes.Values`name
  {
    NewContent(CorruptionContent(t.contentTypes, r.corrupted), t.contentTypes, r.contentNames)
  }

  /** The biomes CacheNewMapNode gives an unvisited node: those of the map
      type under the trimmed id. */
  function BiomesOf(r: NodeRecord, t: Tables): map<string, Biome>
    reads t.maps.Values`biomes, t.biomes.Values`name
  {
    NewBiomes(t.biomes, BiomeNames(t, MapIdOf(r)))
  }

  /** The flags and addresses both cache operations copy from the record. */
  ghost predicate FlagsFrom(n: Node, r: NodeRecord)
    reads n`isUnlocked, n`isVisible, n`isVisited, n`isActive, n`parentAddress, n`address
  {
    && n.isUnlocked == r.isUnlocked && n.isVisible == r.isVisible
    && n.isVisited == r.isVisited && n.isActive == r.isActive
    && n.parentAddress == r.parentAddress && n.address == r.address
  }

  /** What a new node takes from the record alone. */
  ghost predicate IdentityFrom(n: Node, r: NodeRecord)
    reads n`name, n`id, n`neighbors, n`isWaypoint
  {
    n.coordinates == r.coordinate && n.name == r.areaName && n.id == MapIdOf(r)
    && n.neighbors == map[] && !n.isWaypoint
  }

  /** What CacheNewMapNode looks the record up as in the tables: the map
      type, and the content and biomes an unvisited node gets. */
  datatype Lookup = Lookup(mapType: Option<Map>, content: map<string, Content>, biomes: map<string, Biome>)

  ghost function NewLookup(r: NodeRecord, t: Tables): Lookup
    reads t.maps.Values`ids, t.maps.Values`biomes, t.contentTypes.Values`name, t.biomes.Values`name
  {
    Lookup(ResolveMapType(t, ShortIdOf(r), MapIdOf(r)), ContentOf(r, t), BiomesOf(r, t))
  }

  /** What RefreshCachedMapNode looks the record up as: the map type, by the
      short id and then the untrimmed id, and the content keyed by the
      record's names, with the first unknown name. */
  ghost function RefreshLookup(r: NodeRecord, t: Tables): (Option<Map>, (map<string, Content>, Option<string>))
    reads t.maps.Values`ids, t.contentTypes.Values`name
  {
    (ResolveMapType(t, ShortIdOf(r), r.areaId),
     RefreshedContent(CorruptionContent(t.contentTypes, r.corrupted), t.contentTypes, r.contentNames))
  }

  /** Everything of a node the cache operations set, except its links,
      taken as one value: what the later steps of a refresh are stated by,
      since a value is kept across a step that does not touch the node. */
  datatype NodeState = NodeState(
    coordinates: Vector2i, isUnlocked: bool, isVisible: bool, isVisited: bool, isActive: bool,
    parentAddress: int, address: int, name: string, id: string,
    mapType: Map, defaultMap: bool, isTower: bool,
    content: map<string, Content>, contentNames: set<string>, biomes: map<string, Biome>,
    effects: map<string, Tally>, weight: real, computedWeight: real)

  /** The state of a node. */
  ghost function StateOf(n: Node): NodeState
    reads n`isUnlocked, n`isVisible, n`isVisited, n`isActive, n`parentAddress, n`address, n`name, n`id
    reads n`mapType, n.mapType, n`content, n.content.Values, n`biomes, n.biomes.Values
    reads n`effects, n.effects.Values, n`weight
  {
    NodeState(n.coordinates, n.isUnlocked, n.isVisible, n.isVisited, n.isActive, n.parentAddress, n.address,
              n.name, n.id, n.mapType, DefaultMap(n.mapType), n.IsTower(),
              n.content, ContentNames(n.content), n.biomes,
              EffectState(n.effects), n.weight, n.ComputedWeight())
  }

  /** A step that leaves the fields and objects a state reads leaves the
      state. */
  twostate lemma StateKept(n: Node)
    requires unchanged(n`isUnlocked, n`isVisible, n`isVisited, n`isActive, n`parentAddress, n`address, n`name, n`id)
    requires unchanged(n`mapType, n`content, n`biomes, n`effects, n`weight)
    requires unchanged(n.mapType, n.content.Values, n.biomes.Values, n.effects.Values)
    ensures StateOf(n) == old(StateOf(n))
  {
  }

  /** The flags and addresses of a state are the record's. */
  predicate FlagsOf(st: NodeState, r: NodeRecord) {
    && st.isUnlocked == r.isUnlocked && st.isVisible == r.isVisible
    && st.isVisited == r.isVisited && st.isActive == r.isActive
    && st.parentAddress == r.parentAddress && st.address == r.address
  }

  /** The map type of a state is the one found, or a default map. */
  predicate MapTypeOf(st: NodeState, found: Option<Map>) {
    match found
    case Some(x) => st.mapType == x
    case None => st.defaultMap
  }

  /** The node CacheNewMapNode builds from the record and what the tables
      gave: the record's coordinates, name, flags and addresses, the trimmed
      id and the map type; for an unvisited node the content and biomes, for
      a visited one none; tower effects when it is unvisited or a tower,
      values accumulating only when it is unvisited or not a tower, none
      otherwise; and the weight RecalculateWeight gives. */
  predicate Built(st: NodeState, r: NodeRecord, l: Lookup, infos: map<string, ModInfo>, onlyApplicable: bool,
                  sources: seq<EffectSource>)
  {
    && st.coordinates == r.coordinate && st.name == r.areaName && st.id == MapIdOf(r) && FlagsOf(st, r)
    && MapTypeOf(st, l.mapType)
    && st.content == (if r.isVisited then map[] else l.content)
    && st.biomes == (if r.isVisited then map[] else l.biomes)
    && st.effects == (if !r.isVisited || st.isTower
         then TowerEffects(sources, r.coordinate, !st.isTower || !r.isVisited, infos, st.contentNames, onlyApplicable)
         else map[])
    && st.weight == st.computedWeight
  }

  /** A cached node RefreshCachedMapNode refreshed from the record without a
      fault, given the map type and content it looked up: the record's flags
      and addresses and the map type; for an unvisited node the content
      looked up, tower effects with values accumulating, and the weight
      RecalculateWeight gives. */
  predicate Refreshed(st: NodeState, r: NodeRecord, found: Option<Map>, content: map<string, Content>,
                      infos: map<string, ModInfo>, onlyApplicable: bool, sources: seq<EffectSource>)
  {
    && st.coordinates == r.coordinate && FlagsOf(st, r)
    && MapTypeOf(st, found)
    && (!r.isVisited ==>
          && st.content == content
          && st.effects == TowerEffects(sources, r.coordinate, true, infos, st.contentNames, onlyApplicable)
          && st.weight == st.computedWeight)
  }

  /** Built, of a node, and for an unvisited one each effect's weight
      recomputed. */
  ghost predicate BuiltFrom(n: Node, r: NodeRecord, l: Lookup, infos: map<string, ModInfo>, t: Tables,
                            sources: seq<EffectSource>)
    reads n`isUnlocked, n`isVisible, n`isVisited, n`isActive, n`parentAddress, n`address, n`name, n`id
    reads n`mapType, n.mapType, n`content, n.content.Values, n`biomes, n.biomes.Values
    reads n`effects, n.effects.Values, n`weight, t.mods.Values
  {
    && Built(StateOf(n), r, l, infos, t.onlyApplicable, sources)
    && (!r.isVisited ==> Recomputed(n.effects, t.mods))
  }

  /** The coordinates of one more record. */
  lemma NextCoordinates(nodes: seq<NodeRecord>, i: nat)
    requires i < |nodes|
    ensures Coordinates(nodes[..i + 1]) == Coordinates(nodes[..i]) + {nodes[i].coordinate}
  {
    assert nodes[..i + 1] == nodes[..i] + [nodes[i]];
  }

  /** What both cache operations look a record up as, against the tables. */
  datatype Looked = Looked(built: Lookup, found: Option<Map>, content: map<string, Content>, missing: Option<string>)

  ghost function LookedFor(r: NodeRecord, t: Tables): Looked
    reads t.maps.Values`ids, t.maps.Values`biomes, t.contentTypes.Values`name, t.biomes.Values`name
  {
    var (found, (content, missing)) := RefreshLookup(r, t);
    Looked(NewLookup(r, t), found, content, missing)
  }

  /** What one record leaves its node as when it does not fault: built
      from it when the coordinate was not cached, refreshed otherwise. */
  predicate Placed(st: NodeState, r: NodeRecord, isNew: bool, l: Looked, infos: map<string, ModInfo>,
                   onlyApplicable: bool, sources: seq<EffectSource>)
  {
    if isNew then Built(st, r, l.built, infos, onlyApplicable, sources)
    else Refreshed(st, r, l.found, l.content, infos, onlyApplicable, sources)
  }

  /** The coordinates of the first i records. */
  ghost function CoordinatesBefore(nodes: seq<NodeRecord>, i: nat): set<Vector2i>
    requires i <= |nodes|
  {
    if i == 0 then {} else CoordinatesBefore(nodes, i - 1) + {nodes[i - 1].coordinate}
  }

  /** They are the coordinates of the first i records. */
  lemma {:induction false} AllCoordinatesBefore(nodes: seq<NodeRecord>, i: nat)
    requires i <= |nodes|
    ensures CoordinatesBefore(nodes, i) == Coordinates(nodes[..i])
  {
    if i > 0 {
      AllCoordinatesBefore(nodes, i - 1);
      NextCoordinates(nodes, i - 1);
    }
  }

  /** What the record loop keeps of the cache it started from: every old
      coordinate keeps its node, and the keys are the old ones and the
      coordinates of the records so far. */
  ghost predicate Grown(start: map<Vector2i, Node>, cache: map<Vector2i, Node>, nodes: seq<NodeRecord>, i: nat)
    requires i <= |nodes|
  {
    && (forall k | k in start :: k in cache && cache[k] == start[k])
    && cache.Keys == start.Keys + CoordinatesBefore(nodes, i)
  }

  /** One more record caches its coordinate and keeps the other nodes. */
  lemma GrownStep(start: map<Vector2i, Node>, cache: map<Vector2i, Node>, next: map<Vector2i, Node>,
                  nodes: seq<NodeRecord>, i: nat)
    requires i < |nodes| && Grown(start, cache, nodes, i)
    requires var v := nodes[i].coordinate;
      v in next && next == cache[v := next[v]] && (v in cache ==> next[v] == cache[v])
    ensures Grown(start, next, nodes, i + 1)
  {
  }

  /** A cached node is among the cache's values. */
  lemma CachedInValues(cache: map<Vector2i, Node>, v: Vector2i)
    requires v in cache
    ensures cache[v] in cache.Values
  {
  }
}
