/**
 * The map cache of the plugin: one Node per atlas coordinate, built and
 * refreshed from what the atlas panel shows, linked to its neighbours, and
 * summarised by the weight statistics the node colours are scaled by.  Also
 * the waypoints the plugin adds for a node and removes again.
 */
module Atlas {
  import opened Wrappers
  import opened Text
  import opened Codecs
  import opened ColorUtils
  import opened Collections
  import opened Observable
  import opened Definitions
  import opened Effects
  import opened Nodes
  import opened Records
  import opened Building
  import opened Weights
  import opened Placement

  /** The map type lookup of both cache operations, against the tables as
      they are on entry. */
  method LookUpMapType(t: Tables, shortId: string, id: string) returns (m: Map)
    ensures MapTypeIs(m, old(ResolveMapType(t, shortId, id)))
    ensures old(ResolveMapType(t, shortId, id)).None? ==> fresh(m)
  {
    var found := ResolveMapType(t, shortId, id);
    if found.Some? {
      m := found.value;
    } else {
      m := new Map();
    }
  }

  /** The content and biomes CacheNewMapNode gives an unvisited node. */
  method FillContent(n: Node, r: NodeRecord, t: Tables)
    requires n.isVisited == r.isVisited
    modifies n`content, n`biomes
    ensures !r.isVisited ==> n.content == old(ContentOf(r, t)) && n.biomes == old(BiomesOf(r, t))
    ensures r.isVisited ==> n.content == old(n.content) && n.biomes == old(n.biomes)
  {
    if !n.isVisited {
      var content := CollectContent(t.contentTypes, r.corrupted, r.contentNames);
      var names := BiomeNamesOf(t, Trim(r.areaId));
      var biomes := CollectBiomes(t.biomes, names);
      n.content := content;
      n.biomes := biomes;
    }
  }

  /** The tower effect loop over a node: a new dictionary of new effects. */
  method FillEffects(n: Node, sources: seq<EffectSource>, at: Vector2i, accumulate: bool,
                     mods: map<string, ModInfo>, onlyApplicable: bool)
    modifies n`effects
    ensures fresh(n.effects.Values)
    ensures EffectState(n.effects)
         == TowerEffects(sources, at, accumulate, mods, old(ContentNames(n.content)), onlyApplicable)
  {
    var es := BuildEffects(sources, at, accumulate, mods, ContentNames(n.content), onlyApplicable);
    n.effects := es;
  }

  /** The node CacheNewMapNode builds, before its effects: the record's
      flags and addresses, the trimmed id, the map type found, and for an
      unvisited node its content and biomes. */
  method BaseNode(r: NodeRecord, t: Tables) returns (n: Node)
    ensures fresh(n)
    ensures FlagsFrom(n, r) && IdentityFrom(n, r)
    ensures MapTypeIs(n.mapType, old(ResolveMapType(t, ShortIdOf(r), MapIdOf(r))))
    ensures old(ResolveMapType(t, ShortIdOf(r), MapIdOf(r))).None? ==> fresh(n.mapType)
    ensures n.content == (if r.isVisited then map[] else old(ContentOf(r, t)))
    ensures n.biomes == (if r.isVisited then map[] else old(BiomesOf(r, t)))
    ensures n.effects == map[]
  {
    var mapId := Trim(r.areaId);
    var shortId := Replace(mapId, "_NoBoss", "");
    var mapType := LookUpMapType(t, shortId, mapId);
    n := new Node(r.coordinate, r.areaName, mapId, r.isUnlocked, r.isVisible, r.isVisited, r.isActive,
                  r.parentAddress, r.address, mapType);
    FillContent(n, r, t);
  }

  /** The effect loop of CacheNewMapNode, which runs for an unvisited node
      or a tower; values accumulate only for an unvisited node. */
  method AddTowerEffects(n: Node, sources: seq<EffectSource>, mods: map<string, ModInfo>, onlyApplicable: bool)
    modifies n`effects
    ensures n.effects == old(n.effects) || fresh(n.effects.Values)
    ensures if !n.isVisited || n.IsTower()
      then EffectState(n.effects)
           == TowerEffects(sources, n.coordinates, !n.IsTower() || !n.isVisited, mods, ContentNames(n.content), onlyApplicable)
      else n.effects == old(n.effects)
  {
    if !n.isVisited || n.IsTower() {
      FillEffects(n, sources, n.coordinates, !n.IsTower() || !n.isVisited, mods, onlyApplicable);
    }
  }

  /** The effects of a new node, then its weight.  The values the effects
      are stated by are taken before the weight changes, so the proof need
      not carry the effect state across it. */
  method WeighNew(n: Node, sources: seq<EffectSource>, infos: map<string, ModInfo>, t: Tables)
    requires n.effects == map[]
    modifies n`effects, n`weight
    ensures fresh(n.effects.Values)
    ensures EffectState(n.effects) == if !n.isVisited || n.IsTower()
      then TowerEffects(sources, n.coordinates, !n.IsTower() || !n.isVisited, infos, ContentNames(n.content), t.onlyApplicable)
      else map[]
    ensures n.weight == n.ComputedWeight()
    ensures !n.isVisited ==> Recomputed(n.effects, t.mods)
  {
    AddTowerEffects(n, sources, infos, t.onlyApplicable);
    ghost var names := ContentNames(n.content);
    ghost var tower := n.IsTower();
    ghost var state := EffectState(n.effects);
    n.RecalculateWeight(t.mods);
    assert names == ContentNames(n.content);
    assert tower == n.IsTower();
    assert state == EffectState(n.effects);
  }

  /** The node of CacheNewMapNode, before it is added: built from the
      record and the tables as they are on entry, with the given modifier
      infos. */
  method NewNode(r: NodeRecord, t: Tables, infos: map<string, ModInfo>, sources: seq<EffectSource>) returns (n: Node)
    ensures fresh(n) && fresh(n.effects.Values)
    ensures old(NewLookup(r, t)).mapType.None? ==> fresh(n.mapType)
    ensures BuiltFrom(n, r, old(NewLookup(r, t)), infos, t, sources) && IdentityFrom(n, r)
  {
    n := BaseNode(r, t);
    WeighNew(n, sources, infos, t);
  }

  /** The flags and addresses RefreshCachedMapNode copies from the record;
      a node counts as visited when the record says so. */
  method RefreshFlags(r: NodeRecord, n: Node)
    modifies n`isUnlocked, n`isVisible, n`isVisited, n`isActive, n`address, n`parentAddress
    ensures FlagsFrom(n, r)
  {
    n.isUnlocked := r.isUnlocked;
    n.isVisible := r.isVisible;
    n.isVisited := r.isVisited || (!r.isUnlocked && r.isVisited);
    n.isActive := r.isActive;
    n.address := r.address;
    n.parentAddress := r.parentAddress;
  }

  /** The first half of RefreshCachedMapNode, for every cached node: the
      flags and addresses, then the map type. */
  method RefreshHeader(r: NodeRecord, n: Node, t: Tables)
    modifies n`isUnlocked, n`isVisible, n`isVisited, n`isActive, n`address, n`parentAddress, n`mapType
    ensures FlagsFrom(n, r)
    ensures MapTypeIs(n.mapType, old(ResolveMapType(t, ShortIdOf(r), r.areaId)))
  {
    ghost var found := ResolveMapType(t, ShortIdOf(r), r.areaId);
    RefreshFlags(r, n);
    assert found == ResolveMapType(t, ShortIdOf(r), r.areaId);
    RefreshMapType(r, n, t);
  }

  /** The map type RefreshCachedMapNode looks up: the short id first, then
      the untrimmed id. */
  method RefreshMapType(r: NodeRecord, n: Node, t: Tables)
    modifies n`mapType
    ensures MapTypeIs(n.mapType, old(ResolveMapType(t, ShortIdOf(r), r.areaId)))
    ensures old(ResolveMapType(t, ShortIdOf(r), r.areaId)).None? ==> fresh(n.mapType)
  {
    var shortId := Replace(Trim(r.areaId), "_NoBoss", "");
    var mapType := LookUpMapType(t, shortId, r.areaId);
    n.mapType := mapType;
  }

  /** The second half, for an unvisited node: the content again, keyed by
      the record's names; when all are known, new tower effects with
      accumulating values, and the weight. */
  method RefreshContents(r: NodeRecord, n: Node, t: Tables, sources: seq<EffectSource>,
                         infos: map<string, ModInfo>, ghost refreshed: (map<string, Content>, Option<string>))
    returns (fault: Option<Fault>)
    requires !n.isVisited
    requires refreshed == RefreshedContent(CorruptionContent(t.contentTypes, r.corrupted), t.contentTypes, r.contentNames)
    modifies n`content, n`effects, n`weight
    ensures n.content == refreshed.0
    ensures refreshed.1.Some? ==> fault == Some(ContentTypeNotFound(refreshed.1.value))
                                  && n.effects == old(n.effects) && n.weight == old(n.weight)
    ensures refreshed.1.None? ==> fault.None? && fresh(n.effects.Values)
                                  && EffectState(n.effects)
                                     == TowerEffects(sources, r.coordinate, true, infos, ContentNames(n.content), t.onlyApplicable)
                                  && n.weight == n.ComputedWeight() && Recomputed(n.effects, t.mods)
  {
    var content, missing := RefreshContent(t.contentTypes, r.corrupted, r.contentNames);
    n.content := content;
    if missing.Some? {
      return Some(ContentTypeNotFound(missing.value));
    }
    RefreshEffects(n, sources, r.coordinate, infos, t);
    fault := None;
  }

  /** The effects of a refreshed unvisited node, values accumulating, then
      its weight; the effect state is taken before the weight changes. */
  method RefreshEffects(n: Node, sources: seq<EffectSource>, at: Vector2i, infos: map<string, ModInfo>, t: Tables)
    requires !n.isVisited
    modifies n`effects, n`weight
    ensures fresh(n.effects.Values)
    ensures EffectState(n.effects)
         == TowerEffects(sources, at, true, infos, ContentNames(n.content), t.onlyApplicable)
    ensures n.weight == n.ComputedWeight() && Recomputed(n.effects, t.mods)
  {
    FillEffects(n, sources, at, n.IsTower() || !n.isVisited, infos, t.onlyApplicable);
    ghost var names := ContentNames(n.content);
    ghost var state := EffectState(n.effects);
    n.RecalculateWeight(t.mods);
    assert names == ContentNames(n.content);
    assert state == EffectState(n.effects);
  }

  /** RefreshCachedMapNode: refreshes the flags, addresses and map type of
      a cached node; a visited node keeps everything else.  An unvisited
      one gets its content again, keyed by the record's names, and when
      all of them are known, new tower effects and a new weight; an
      unknown name stops the refresh there. */
  method RefreshCachedMapNode(r: NodeRecord, n: Node, t: Tables, infos: map<string, ModInfo>, sources: seq<EffectSource>)
    returns (fault: Option<Fault>)
    modifies n`isUnlocked, n`isVisible, n`isVisited, n`isActive, n`address, n`parentAddress
    modifies n`mapType, n`content, n`effects, n`weight
    ensures FlagsFrom(n, r)
    ensures MapTypeIs(n.mapType, old(ResolveMapType(t, ShortIdOf(r), r.areaId)))
    ensures r.isVisited ==>
      fault.None? && n.content == old(n.content) && n.effects == old(n.effects) && n.weight == old(n.weight)
    ensures !r.isVisited ==>
      var (content, missing) := old(RefreshedContent(CorruptionContent(t.contentTypes, r.corrupted), t.contentTypes, r.contentNames));
      && n.content == content
      && (missing.Some? ==> fault == Some(ContentTypeNotFound(missing.value))
                            && n.effects == old(n.effects) && n.weight == old(n.weight))
      && (missing.None? ==> fault.None? && fresh(n.effects.Values)
                            && EffectState(n.effects)
                               == TowerEffects(sources, r.coordinate, true, infos, ContentNames(n.content), t.onlyApplicable)
                            && n.weight == n.ComputedWeight() && Recomputed(n.effects, t.mods))
  {
    ghost var refreshed := RefreshedContent(CorruptionContent(t.contentTypes, r.corrupted), t.contentTypes, r.contentNames);
    RefreshHeader(r, n, t);
    if n.isVisited {
      return None;
    }
    assert refreshed == RefreshedContent(CorruptionContent(t.contentTypes, r.corrupted), t.contentTypes, r.contentNames);
    fault := RefreshContents(r, n, t, sources, infos, refreshed);
  }

  /** RefreshCachedMapNode on the cached node of a record, stated by what
      the record was looked up as. */
  method RefreshRecord(r: NodeRecord, n: Node, s: Snapshot, t: Tables, infos: map<string, ModInfo>, ghost l: Looked)
    returns (fault: Option<Fault>)
    requires l == LookedFor(r, t) && n.coordinates == r.coordinate
    modifies n`isUnlocked, n`isVisible, n`isVisited, n`isActive, n`address, n`parentAddress
    modifies n`mapType, n`content, n`effects, n`weight
    ensures fault.Some? <==> !r.isVisited && l.missing.Some?
    ensures fault.Some? ==> fault == Some(ContentTypeNotFound(l.missing.value))
    ensures fault.None? ==> Placed(StateOf(n), r, false, l, infos, t.onlyApplicable, s.sources)
    ensures fault.None? && !r.isVisited ==> Recomputed(n.effects, t.mods)
    ensures r.isVisited ==> n.content == old(n.content) && n.effects == old(n.effects) && n.weight == old(n.weight)
    ensures fault.Some? ==>
      && FlagsFrom(n, r) && MapTypeIs(n.mapType, l.found) && n.content == l.content
      && n.effects == old(n.effects) && n.weight == old(n.weight)
  {
    fault := RefreshCachedMapNode(r, n, t, infos, s.sources);
  }

  // ---------------------------------------------------------------------
  // Connections
  // ---------------------------------------------------------------------

  /** default((Vector2i, Vector2i, Vector2i, Vector2i, Vector2i)). */
  const NoConnection: Connection := Connection(Origin, Origin, Origin, Origin, Origin)

  /** Points.FirstOrDefault(x => x.Item1 == at). */
  function FirstConnection(points: seq<Connection>, at: Vector2i): (c: Connection)
    ensures (exists i :: 0 <= i < |points| && points[i] == c && c.from == at
              && forall j :: 0 <= j < i ==> points[j].from != at)
         || (c == NoConnection && forall j :: 0 <= j < |points| ==> points[j].from != at)
  {
    if |points| == 0 then NoConnection
    else if points[0].from == at then points[0]
    else
      var c := FirstConnection(points[1..], at);
      assert forall j :: 1 <= j < |points| ==> points[j] == points[1..][j - 1];
      c
  }

  /** The four coordinates a node connects to. */
  function Outgoing(c: Connection): seq<Vector2i> {
    [c.to1, c.to2, c.to3, c.to4]
  }

  /** The point connects to at. */
  predicate PointsTo(p: Connection, at: Vector2i) {
    p.to1 == at || p.to2 == at || p.to3 == at || p.to4 == at
  }

  /** The coordinates of the points that connect to at, in order. */
  function Incoming(points: seq<Connection>, at: Vector2i): (r: seq<Vector2i>)
    ensures forall v | v in r :: exists i :: 0 <= i < |points| && PointsTo(points[i], at) && points[i].from == v
    decreases |points|
  {
    if |points| == 0 then []
    else
      var rest := Incoming(points[..|points| - 1], at);
      assert forall i :: 0 <= i < |points| - 1 ==> points[..|points| - 1][i] == points[i];
      var p := points[|points| - 1];
      if PointsTo(p, at) then rest + [p.from] else rest
  }

  /** Incoming is the filter of Points.Where: a single point contributes its
      source exactly when it connects to at, and the results of consecutive
      runs of points are concatenated, so every such source appears, and
      only those, in the order of the points. */
  lemma {:induction false} IncomingIsFilter(a: seq<Connection>, b: seq<Connection>, at: Vector2i)
    ensures Incoming(a + b, at) == Incoming(a, at) + Incoming(b, at)
    ensures |b| == 1 ==> Incoming(b, at) == if PointsTo(b[0], at) then [b[0].from] else []
    decreases |b|
  {
    if |b| == 0 {
      assert a + b == a;
    } else {
      var init := b[..|b| - 1];
      assert (a + b)[..|a + b| - 1] == a + init;
      IncomingIsFilter(a, init, at);
      assert b[..0] == [];
    }
  }

  /** Neighbors.TryAdd for every key in turn whose node is cached. */
  function TryAddAll(m: map<Vector2i, Node>, keys: seq<Vector2i>, cache: map<Vector2i, Node>): map<Vector2i, Node>
    decreases |keys|
  {
    if |keys| == 0 then m
    else
      var acc := TryAddAll(m, keys[..|keys| - 1], cache);
      var k := keys[|keys| - 1];
      if k in cache && k !in acc then acc[k := cache[k]] else acc
  }

  /** TryAddAll keeps every entry it starts from, and adds exactly the
      listed keys that are cached, each with its cached node. */
  lemma {:induction false} TryAddAllIs(m: map<Vector2i, Node>, keys: seq<Vector2i>, cache: map<Vector2i, Node>)
    ensures var r := TryAddAll(m, keys, cache);
      && r.Keys == m.Keys + (set i | 0 <= i < |keys| && keys[i] in cache :: keys[i])
      && (forall k | k in m :: r[k] == m[k])
      && (forall k | k in r && k !in m :: r[k] == cache[k])
    decreases |keys|
  {
    if |keys| > 0 {
      var init := keys[..|keys| - 1];
      TryAddAllIs(m, init, cache);
      assert forall i :: 0 <= i < |init| ==> init[i] == keys[i];
      var k := keys[|keys| - 1];
      assert (set i | 0 <= i < |keys| && keys[i] in cache :: keys[i])
          == (set i | 0 <= i < |init| && init[i] in cache :: init[i]) + (if k in cache then {k} else {});
    }
  }

  lemma TryAddAllStep(m: map<Vector2i, Node>, keys: seq<Vector2i>, k: Vector2i, cache: map<Vector2i, Node>)
    ensures var acc := TryAddAll(m, keys, cache);
      TryAddAll(m, keys + [k], cache) == if k in cache && k !in acc then acc[k := cache[k]] else acc
  {
    assert (keys + [k])[..|keys|] == keys;
  }

  /** The number of neighbours whose coordinates are not the default. */
  function LinkedCount(neighbors: map<Vector2i, Node>): nat {
    |set k | k in neighbors && neighbors[k].coordinates != Origin|
  }

  // ---------------------------------------------------------------------
  // The weight statistics
  // ---------------------------------------------------------------------

  /** Sum() / Count of the distinct weights. */
  ghost function Mean(d: set<real>): real
    requires d != {}
  {
    SetSum(d) / |d| as real
  }

  /** The statistics RecalculateWeights stores for a set of distinct
      weights: all 0 for none; otherwise the mean, the weight with exactly
      10 weights above it, and the weight with exactly 5 below it. */
  ghost predicate Summary(d: set<real>, average: real, max: real, min: real) {
    && (d == {} ==> average == 0.0 && max == 0.0 && min == 0.0)
    && (d != {} ==>
          && average == Mean(d)
          && max in d && |Above(d, max)| == 10
          && min in d && |Below(d, min)| == 5)
  }

  /** The body of RecalculateWeights on the distinct weights: Sum() / Count,
      then Max() of the values after the 10 largest and Min() of those after
      the 5 smallest.  With 1 to 10 weights nothing is left after the skip,
      and Max() throws once the average is known. */
  method Statistics(d: set<real>) returns (average: real, max: real, min: real, fault: Option<Fault>)
    ensures fault.Some? <==> 1 <= |d| <= 10
    ensures fault.None? ==> Summary(d, average, max, min)
    ensures fault.Some? ==> fault == Some(NoElements) && average == Mean(d)
  {
    if |d| == 0 {
      return 0.0, 0.0, 0.0, None;
    }
    var total := SumOf(d);
    average := total / |d| as real;
    var top := SkipLargest(d, 10);
    if top == {} {
      return average, 0.0, 0.0, Some(NoElements);
    }
    max := MaxOf(top);
    TopAfterSkip(d, top, 10, max);
    var bottom := SkipSmallest(d, 5);
    min := MinOf(bottom);
    BottomAfterSkip(d, bottom, 5, min);
    fault := None;
  }

  // ---------------------------------------------------------------------
  // The cache
  // ---------------------------------------------------------------------

  class AtlasCache {
    var mapCache: map<Vector2i, Node>
    var maxMapWeight: real
    var minMapWeight: real
    var averageMapWeight: real
    /** Set while RefreshMapCache runs; Tick starts no refresh meanwhile. */
    var refreshingCache: bool
    /** Set when the cache is due for a refresh. */
    var refreshCache: bool

    /** Every node is cached under its own coordinates. */
    predicate Valid()
      reads this`mapCache
    {
      forall k | k in mapCache :: mapCache[k].coordinates == k
    }

    /** The field initialisers. */
    constructor()
      ensures Valid() && mapCache == map[]
      ensures maxMapWeight == 20.0 && minMapWeight == -20.0 && averageMapWeight == 0.0
      ensures !refreshingCache && !refreshCache
    {
      mapCache := map[];
      maxMapWeight := 20.0;
      minMapWeight := -20.0;
      averageMapWeight := 0.0;
      refreshingCache := false;
      refreshCache := false;
    }

    /** The distinct weights of the unvisited cached nodes. */
    function UnvisitedWeights(): set<real>
      reads this`mapCache, mapCache.Values`isVisited, mapCache.Values`weight
    {
      set k | k in mapCache && !mapCache[k].isVisited :: mapCache[k].weight
    }

    /** What RecalculateWeights leaves when it completes on a non-empty
        cache: the statistics of the distinct unvisited weights. */
    ghost predicate Summarised()
      reads this`mapCache, mapCache.Values`isVisited, mapCache.Values`weight
      reads this`averageMapWeight, this`maxMapWeight, this`minMapWeight
    {
      Summary(UnvisitedWeights(), averageMapWeight, maxMapWeight, minMapWeight)
    }

    /** RecalculateWeights: an empty cache changes nothing; otherwise the
        statistics of the distinct unvisited weights are stored, and with 1
        to 10 of them Max() throws once the average is set. */
    method RecalculateWeights() returns (fault: Option<Fault>)
      modifies this`averageMapWeight, this`maxMapWeight, this`minMapWeight
      ensures |mapCache| == 0 ==>
        fault.None? && averageMapWeight == old(averageMapWeight)
        && maxMapWeight == old(maxMapWeight) && minMapWeight == old(minMapWeight)
      ensures |mapCache| > 0 ==> (fault.Some? <==> 1 <= |UnvisitedWeights()| <= 10)
      ensures |mapCache| > 0 && fault.None? ==> Summarised()
      ensures fault.Some? ==>
        && fault == Some(NoElements)
        && averageMapWeight == Mean(UnvisitedWeights())
        && maxMapWeight == old(maxMapWeight) && minMapWeight == old(minMapWeight)
    {
      if |mapCache| == 0 {
        return None;
      }
      var d := UnvisitedWeights();
      var average, most, least, f := Statistics(d);
      averageMapWeight := average;
      if f.Some? {
        return f;
      }
      maxMapWeight, minMapWeight := most, least;
      fault := None;
    }

    /** CacheNewMapNode: builds the node, with the given modifier infos,
        and adds it unless its coordinate is taken; 1 when it was added,
        else 0. */
    method CacheNewMapNode(r: NodeRecord, t: Tables, infos: map<string, ModInfo>, sources: seq<EffectSource>)
      returns (added: int)
      requires Valid()
      modifies this`mapCache
      ensures Valid()
      ensures added == if r.coordinate in old(mapCache) then 0 else 1
      ensures r.coordinate in old(mapCache) ==> mapCache == old(mapCache)
      ensures r.coordinate !in old(mapCache) ==>
        && r.coordinate in mapCache
        && mapCache == old(mapCache)[r.coordinate := mapCache[r.coordinate]]
        && fresh(mapCache[r.coordinate]) && fresh(mapCache[r.coordinate].effects.Values)
      ensures r.coordinate !in old(mapCache) ==>
        BuiltFrom(mapCache[r.coordinate], r, old(NewLookup(r, t)), infos, t, sources)
        && IdentityFrom(mapCache[r.coordinate], r)
    {
      ghost var l := NewLookup(r, t);
      var n := NewNode(r, t, infos, sources);
      if r.coordinate in mapCache {
        return 0;
      }
      Insert(n, r, StateOf(n));
      added := 1;
    }

    /** The TryAdd of CacheNewMapNode once the coordinate is known free,
        which leaves the node as it is. */
    method Insert(n: Node, r: NodeRecord, ghost st: NodeState)
      requires StateOf(n) == st
      modifies this`mapCache
      ensures mapCache == old(mapCache)[r.coordinate := n]
      ensures StateOf(n) == st
    {
      mapCache := mapCache[r.coordinate := n];
    }

    /** CacheMapConnections: a node with four linked neighbours is left
        alone; otherwise it takes the connections of its first point and
        links, in turn, the cached nodes it connects to and the cached
        nodes whose points connect to it, keeping links it has. */
    method CacheMapConnections(n: Node, points: seq<Connection>)
      modifies n`neighbors, n`neighborCoordinates
      ensures old(LinkedCount(n.neighbors)) == 4 ==>
        n.neighbors == old(n.neighbors) && n.neighborCoordinates == old(n.neighborCoordinates)
      ensures old(LinkedCount(n.neighbors)) != 4 ==>
        var c := FirstConnection(points, n.coordinates);
        && n.neighborCoordinates == (c.to1, c.to2, c.to3, c.to4)
        && n.neighbors == TryAddAll(old(n.neighbors), Outgoing(c) + Incoming(points, n.coordinates), mapCache)
    {
      if LinkedCount(n.neighbors) == 4 {
        return;
      }
      var c := FirstConnection(points, n.coordinates);
      n.neighborCoordinates := (c.to1, c.to2, c.to3, c.to4);
      var out := Outgoing(c);
      n.neighbors := LinkAll(n.neighbors, out);
      assert out + Incoming(points[..0], n.coordinates) == out;
      var j := 0;
      while j < |points|
        invariant 0 <= j <= |points|
        invariant n.neighborCoordinates == (c.to1, c.to2, c.to3, c.to4)
        invariant n.neighbors == TryAddAll(old(n.neighbors), out + Incoming(points[..j], n.coordinates), mapCache)
      {
        ghost var done := out + Incoming(points[..j], n.coordinates);
        assert points[..j + 1][..j] == points[..j];
        var p := points[j];
        if PointsTo(p, n.coordinates) {
          assert out + Incoming(points[..j + 1], n.coordinates) == done + [p.from];
          TryAddAllStep(old(n.neighbors), done, p.from, mapCache);
          n.neighbors := Link(n.neighbors, p.from);
        }
        j := j + 1;
      }
      assert points[..j] == points;
    }

    /** neighbors.TryAdd(v, mapCache[v]) when v is cached. */
    function Link(neighbors: map<Vector2i, Node>, v: Vector2i): map<Vector2i, Node>
      reads this`mapCache
    {
      if v in mapCache && v !in neighbors then neighbors[v := mapCache[v]] else neighbors
    }

    /** The loop over the four outgoing coordinates. */
    method LinkAll(neighbors: map<Vector2i, Node>, out: seq<Vector2i>) returns (r: map<Vector2i, Node>)
      ensures r == TryAddAll(neighbors, out, mapCache)
    {
      r := neighbors;
      var i := 0;
      while i < |out|
        invariant 0 <= i <= |out|
        invariant r == TryAddAll(neighbors, out[..i], mapCache)
      {
        TryAddAllStep(neighbors, out[..i], out[i], mapCache);
        assert out[..i + 1] == out[..i] + [out[i]];
        r := Link(r, out[i]);
        i := i + 1;
      }
      assert out[..i] == out;
    }

    /** One record of RefreshMapCache: the cached node refreshed, or a new
        node cached; then, unless the refresh faulted, its connections.
        Only the record's own node changes. */
    method CacheRecord(r: NodeRecord, s: Snapshot, t: Tables, infos: map<string, ModInfo>, ghost l: Looked)
      returns (fault: Option<Fault>)
      requires Valid() && l == LookedFor(r, t)
      modifies this`mapCache, if r.coordinate in mapCache then {mapCache[r.coordinate]} else {}
      ensures Valid()
      ensures r.coordinate in mapCache && mapCache == old(mapCache)[r.coordinate := mapCache[r.coordinate]]
      ensures r.coordinate in old(mapCache) ==> mapCache[r.coordinate] == old(mapCache[r.coordinate])
      ensures r.coordinate !in old(mapCache) ==> fault.None? && fresh(mapCache[r.coordinate])
      ensures r.coordinate in old(mapCache) ==>
        && (fault.Some? <==> !r.isVisited && l.missing.Some?)
        && (fault.Some? ==> fault == Some(ContentTypeNotFound(l.missing.value)))
      ensures fault.None? ==>
        Placed(StateOf(mapCache[r.coordinate]), r, r.coordinate !in old(mapCache), l, infos, t.onlyApplicable, s.sources)
      ensures fault.None? ==>
        var n := mapCache[r.coordinate];
        var before := if r.coordinate in old(mapCache) then old(mapCache[r.coordinate].neighbors) else map[];
        var c := FirstConnection(s.points, r.coordinate);
        if LinkedCount(before) == 4 then n.neighbors == before
        else n.neighborCoordinates == (c.to1, c.to2, c.to3, c.to4)
             && n.neighbors == TryAddAll(before, Outgoing(c) + Incoming(s.points, r.coordinate), mapCache)
      ensures r.coordinate in old(mapCache) ==>
        var n := mapCache[r.coordinate];
        && n.name == old(n.name) && n.id == old(n.id) && n.biomes == old(n.biomes)
        && (r.isVisited ==> n.content == old(n.content) && n.effects == old(n.effects) && n.weight == old(n.weight))
      ensures fault.Some? ==>
        var n := mapCache[r.coordinate];
        && FlagsFrom(n, r) && MapTypeIs(n.mapType, l.found) && n.content == l.content
        && n.effects == old(n.effects) && n.weight == old(n.weight)
    {
      fault := PlaceRecord(r, s, t, infos, l);
      if fault.Some? {
        return;
      }
      Connect(mapCache[r.coordinate], s, StateOf(mapCache[r.coordinate]));
    }

    /** CacheMapConnections on a placed node, which keeps its state. */
    method Connect(n: Node, s: Snapshot, ghost st: NodeState)
      requires StateOf(n) == st
      modifies n`neighbors, n`neighborCoordinates
      ensures StateOf(n) == st
      ensures var c := FirstConnection(s.points, n.coordinates);
        if LinkedCount(old(n.neighbors)) == 4 then n.neighbors == old(n.neighbors)
        else n.neighborCoordinates == (c.to1, c.to2, c.to3, c.to4)
             && n.neighbors == TryAddAll(old(n.neighbors), Outgoing(c) + Incoming(s.points, n.coordinates), mapCache)
    {
      CacheMapConnections(n, s.points);
      StateKept(n);
    }

    /** The first half of CacheRecord: the cached node refreshed, or a new
        node cached. */
    method PlaceRecord(r: NodeRecord, s: Snapshot, t: Tables, infos: map<string, ModInfo>, ghost l: Looked)
      returns (fault: Option<Fault>)
      requires Valid() && l == LookedFor(r, t)
      modifies this`mapCache, if r.coordinate in mapCache then {mapCache[r.coordinate]} else {}
      ensures Valid()
      ensures r.coordinate in mapCache && mapCache == old(mapCache)[r.coordinate := mapCache[r.coordinate]]
      ensures r.coordinate in old(mapCache) ==>
        && mapCache[r.coordinate] == old(mapCache[r.coordinate])
        && mapCache[r.coordinate].neighbors == old(mapCache[r.coordinate].neighbors)
        && (fault.Some? <==> !r.isVisited && l.missing.Some?)
        && (fault.Some? ==> fault == Some(ContentTypeNotFound(l.missing.value)))
      ensures r.coordinate !in old(mapCache) ==>
        && fault.None? && fresh(mapCache[r.coordinate])
        && mapCache[r.coordinate].neighbors == map[]
      ensures fault.None? ==>
        Placed(StateOf(mapCache[r.coordinate]), r, r.coordinate !in old(mapCache), l, infos, t.onlyApplicable, s.sources)
      ensures fault.None? && !r.isVisited ==> Recomputed(mapCache[r.coordinate].effects, t.mods)
      ensures r.coordinate in old(mapCache) ==>
        var n := mapCache[r.coordinate];
        && n.name == old(n.name) && n.id == old(n.id) && n.biomes == old(n.biomes)
        && (r.isVisited ==> n.content == old(n.content) && n.effects == old(n.effects) && n.weight == old(n.weight))
      ensures fault.Some? ==>
        var n := mapCache[r.coordinate];
        && FlagsFrom(n, r) && MapTypeIs(n.mapType, l.found) && n.content == l.content
        && n.effects == old(n.effects) && n.weight == old(n.weight)
    {
      if r.coordinate in mapCache {
        fault := PlaceCached(r, s, t, infos, l);
      } else {
        AddNewRecord(r, s, t, infos);
        fault := None;
      }
    }

    /** The refresh branch of PlaceRecord: the cached node of the
        coordinate refreshed in place. */
    method PlaceCached(r: NodeRecord, s: Snapshot, t: Tables, infos: map<string, ModInfo>, ghost l: Looked)
      returns (fault: Option<Fault>)
      requires Valid() && l == LookedFor(r, t) && r.coordinate in mapCache
      modifies mapCache[r.coordinate]
      ensures (fault.Some? <==> !r.isVisited && l.missing.Some?)
      ensures fault.Some? ==> fault == Some(ContentTypeNotFound(l.missing.value))
      ensures fault.None? ==> Placed(StateOf(mapCache[r.coordinate]), r, false, l, infos, t.onlyApplicable, s.sources)
      ensures fault.None? && !r.isVisited ==> Recomputed(mapCache[r.coordinate].effects, t.mods)
      ensures var n := mapCache[r.coordinate];
        && n.neighbors == old(n.neighbors) && n.name == old(n.name) && n.id == old(n.id) && n.biomes == old(n.biomes)
        && (r.isVisited ==> n.content == old(n.content) && n.effects == old(n.effects) && n.weight == old(n.weight))
      ensures fault.Some? ==>
        var n := mapCache[r.coordinate];
        && FlagsFrom(n, r) && MapTypeIs(n.mapType, l.found) && n.content == l.content
        && n.effects == old(n.effects) && n.weight == old(n.weight)
    {
      fault := RefreshRecord(r, mapCache[r.coordinate], s, t, infos, l);
    }

    /** The new-node branch of PlaceRecord, with its count dropped. */
    method AddNewRecord(r: NodeRecord, s: Snapshot, t: Tables, infos: map<string, ModInfo>)
      requires Valid() && r.coordinate !in mapCache
      modifies this`mapCache
      ensures Valid()
      ensures r.coordinate in mapCache && mapCache == old(mapCache)[r.coordinate := mapCache[r.coordinate]]
      ensures fresh(mapCache[r.coordinate])
      ensures BuiltFrom(mapCache[r.coordinate], r, old(NewLookup(r, t)), infos, t, s.sources)
      ensures IdentityFrom(mapCache[r.coordinate], r)
    {
      var _ := CacheNewMapNode(r, t, infos, s.sources);
    }

    /** RefreshMapCache: empties the cache first when asked; refreshes the
        cached node of each record, or caches a new one, and links it; then
        recalculates the weight statistics.  It stops at the first fault,
        with refreshingCache still set. */
    method RefreshMapCache(clearCache: bool, s: Snapshot, t: Tables) returns (fault: Option<Fault>)
      requires Valid()
      modifies this`mapCache, mapCache.Values, this`refreshingCache, this`refreshCache
      modifies this`averageMapWeight, this`maxMapWeight, this`minMapWeight
      ensures Valid()
      ensures fresh(mapCache.Values - old(mapCache.Values))
      ensures !clearCache ==> forall k | k in old(mapCache) :: k in mapCache && mapCache[k] == old(mapCache)[k]
      ensures fault.None? ==> mapCache.Keys == (if clearCache then {} else old(mapCache).Keys) + Coordinates(s.nodes)
      ensures fault.None? ==> !refreshingCache && !refreshCache && (|mapCache| > 0 ==> Summarised())
      ensures fault.Some? ==> refreshingCache
    {
      refreshingCache := true;
      var infos := Infos(t.mods);
      fault := Rebuild(clearCache, s, t, infos);
      if fault.Some? {
        return;
      }
      ghost var cache := mapCache;
      ghost var values := mapCache.Values;
      fault := FinishRefresh();
      assert mapCache == cache && mapCache.Values == values;
    }

    /** The cache part of RefreshMapCache: the optional clear, then the
        records. */
    method Rebuild(clearCache: bool, s: Snapshot, t: Tables, infos: map<string, ModInfo>) returns (fault: Option<Fault>)
      requires Valid()
      modifies this`mapCache, mapCache.Values
      ensures Valid()
      ensures fresh(mapCache.Values - old(mapCache.Values))
      ensures !clearCache ==> forall k | k in old(mapCache) :: k in mapCache && mapCache[k] == old(mapCache)[k]
      ensures fault.None? ==> mapCache.Keys == (if clearCache then {} else old(mapCache).Keys) + Coordinates(s.nodes)
    {
      if clearCache {
        mapCache := map[];
      }
      fault := CacheRecords(s, t, infos);
    }

    /** The record loop of RefreshMapCache; it stops at the first fault.
        Each record goes through CacheRecord, which states what becomes of
        its node; the loop itself keeps track of the keys and of which
        object sits under each old key. */
    method CacheRecords(s: Snapshot, t: Tables, infos: map<string, ModInfo>) returns (fault: Option<Fault>)
      requires Valid()
      modifies this`mapCache, mapCache.Values
      ensures Valid()
      ensures fresh(mapCache.Values - old(mapCache.Values))
      ensures forall k | k in old(mapCache) :: k in mapCache && mapCache[k] == old(mapCache)[k]
      ensures fault.None? ==> mapCache.Keys == old(mapCache).Keys + Coordinates(s.nodes)
    {
      fault := None;
      ghost var start := mapCache;
      var i := 0;
      while i < |s.nodes|
        invariant 0 <= i <= |s.nodes|
        invariant Valid()
        invariant fresh(mapCache.Values - start.Values)
        invariant Grown(start, mapCache, s.nodes, i)
      {
        ghost var before := mapCache;
        fault := CacheStep(s.nodes[i], s, t, infos);
        GrownStep(start, before, mapCache, s.nodes, i);
        if fault.Some? {
          return;
        }
        i := i + 1;
      }
      AllCoordinatesBefore(s.nodes, i);
      assert s.nodes[..i] == s.nodes;
    }

    /** CacheRecord, seen from the record loop. */
    method CacheStep(r: NodeRecord, s: Snapshot, t: Tables, infos: map<string, ModInfo>) returns (fault: Option<Fault>)
      requires Valid()
      modifies this`mapCache, mapCache.Values
      ensures Valid()
      ensures r.coordinate in mapCache && mapCache == old(mapCache)[r.coordinate := mapCache[r.coordinate]]
      ensures r.coordinate in old(mapCache) ==> mapCache[r.coordinate] == old(mapCache[r.coordinate])
      ensures fresh(mapCache.Values - old(mapCache.Values))
    {
      if r.coordinate in mapCache {
        CachedInValues(mapCache, r.coordinate);
      }
      fault := CacheRecord(r, s, t, infos, LookedFor(r, t));
    }

    /** The end of RefreshMapCache: the weight statistics, then, unless
        they fault, both refresh flags cleared. */
    method FinishRefresh() returns (fault: Option<Fault>)
      modifies this`averageMapWeight, this`maxMapWeight, this`minMapWeight, this`refreshingCache, this`refreshCache
      ensures fault.None? ==> !refreshingCache && !refreshCache && (|mapCache| > 0 ==> Summarised())
      ensures fault.Some? ==> refreshingCache == old(refreshingCache) && refreshCache == old(refreshCache)
    {
      fault := RecalculateWeights();
      if fault.Some? {
        return;
      }
      ghost var summarised := Summarised();
      refreshingCache := false;
      refreshCache := false;
      assert summarised == Summarised();
    }

    // -------------------------------------------------------------------
    // Waypoints
    // -------------------------------------------------------------------

    /** The waypoint AddWaypoint saves for a node: its ToWaypoint with the
        house icon, coloured between the bad and good colours by where its
        weight lies between the minimum and maximum.  With the two equal
        the float division has no number, and the colour is the given
        degenerate one. */
    function WaypointFor(n: Node, bad: Color, good: Color, degenerate: Color): (w: Waypoint)
      reads this`minMapWeight, this`maxMapWeight, n`name, n`id, n`address, n`weight
      ensures w.coordinates == n.coordinates && w.name == n.name && w.id == n.id && w.address == n.address && w.show
      ensures w.icon == LootFilterLargeWhiteUpsideDownHouse && w.color.Some?
      ensures maxMapWeight != minMapWeight ==>
        w.color == Some(InterpolateColor(bad, good, (n.weight - minMapWeight) / (maxMapWeight - minMapWeight)))
    {
      var fraction := if maxMapWeight != minMapWeight then Some((n.weight - minMapWeight) / (maxMapWeight - minMapWeight)) else None;
      n.ToWaypoint().(icon := LootFilterLargeWhiteUpsideDownHouse,
                      color := Some(if fraction.Some? then InterpolateColor(bad, good, fraction.value) else degenerate))
    }

    /** AddWaypoint: a node whose key is saved already changes nothing;
        otherwise its waypoint is added under its key, in the entry the
        dictionary's Add picks for it. */
    method AddWaypoint(wps: ObservableDictionary<string, Waypoint>, n: Node, keyOf: Vector2i -> string,
                       bad: Color, good: Color, degenerate: Color)
      requires wps.Valid()
      modifies wps
      ensures wps.Valid()
      ensures keyOf(n.coordinates) in old(wps.items) ==>
        wps.items == old(wps.items) && wps.slots == old(wps.slots) && wps.log == old(wps.log)
      ensures keyOf(n.coordinates) !in old(wps.items) ==>
        var w := WaypointFor(n, bad, good, degenerate);
        && wps.items == old(wps.items)[keyOf(n.coordinates) := w]
        && wps.slots == Observable.Insert(old(wps.slots), keyOf(n.coordinates))
        && wps.log == old(wps.log) + [CountChanged, Added(Pair(keyOf(n.coordinates), w))]
    {
      var key := keyOf(n.coordinates);
      if wps.ContainsKey(key) {
        return;
      }
      var w := WaypointFor(n, bad, good, degenerate);
      wps.Add(key, w);
    }

    /** RemoveWaypoint(node): removes the node's key when it is saved. */
    method RemoveWaypoint(wps: ObservableDictionary<string, Waypoint>, n: Node, keyOf: Vector2i -> string)
      requires wps.Valid()
      modifies wps
      ensures wps.Valid()
      ensures wps.items == old(wps.items) - {keyOf(n.coordinates)}
      ensures keyOf(n.coordinates) !in old(wps.items) ==> wps.slots == old(wps.slots) && wps.log == old(wps.log)
      ensures keyOf(n.coordinates) in old(wps.items) ==>
        && wps.slots == Free(old(wps.slots), keyOf(n.coordinates))
        && wps.log == old(wps.log) + [CountChanged, Removed(Pair(keyOf(n.coordinates), old(wps.items)[keyOf(n.coordinates)]))]
    {
      var key := keyOf(n.coordinates);
      if !wps.ContainsKey(key) {
        return;
      }
      var _ := wps.Remove(key);
    }

    /** RemoveWaypoint(waypoint): removes the waypoint's key, raising Count
        and Remove when it was saved. */
    method RemoveSavedWaypoint(wps: ObservableDictionary<string, Waypoint>, w: Waypoint, keyOf: Vector2i -> string)
      requires wps.Valid()
      modifies wps
      ensures wps.Valid()
      ensures wps.items == old(wps.items) - {keyOf(w.coordinates)}
      ensures keyOf(w.coordinates) !in old(wps.items) ==> wps.slots == old(wps.slots) && wps.log == old(wps.log)
      ensures keyOf(w.coordinates) in old(wps.items) ==>
        && wps.slots == Free(old(wps.slots), keyOf(w.coordinates))
        && wps.log == old(wps.log) + [CountChanged, Removed(Pair(keyOf(w.coordinates), old(wps.items)[keyOf(w.coordinates)]))]
    {
      var _ := wps.Remove(keyOf(w.coordinates));
    }
  }
}
