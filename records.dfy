/**
 * What the atlas cache is built from: the node records, tower effect sources
 * and connections the game exposes, the settings tables it looks things up
 * in, and the value-level rules the cache applies to them (map type
 * resolution, which tower effects reach a node, how they accumulate, which
 * content and biomes a node carries).
 */
module Records {
  import opened Wrappers
  import opened Text
  import opened Codecs
  import opened Definitions
  import opened Effects

  // ---------------------------------------------------------------------
  // Inputs
  // ---------------------------------------------------------------------

  /** One AtlasNodeDescription: its coordinate and addresses, the flags and
      area of its element, whether its first child shows a "Corrupt"
      texture, and the names of its content. */
  datatype NodeRecord = NodeRecord(
    coordinate: Vector2i, parentAddress: int, address: int,
    isUnlocked: bool, isVisible: bool, isVisited: bool, isActive: bool,
    areaId: string, areaName: string, corrupted: bool, contentNames: seq<string>)

  /** One effect of a tower: a modifier id and its value. */
  datatype SourceEffect = SourceEffect(modId: int, value: int)

  /** One tower and the effects it applies around it. */
  datatype EffectSource = EffectSource(coordinate: Vector2i, effects: seq<SourceEffect>)

  /** One entry of AtlasPanel.Points: a node and its four connections. */
  datatype Connection = Connection(from: Vector2i, to1: Vector2i, to2: Vector2i, to3: Vector2i, to4: Vector2i)

  /** What AtlasPanel shows while the cache is refreshed. */
  datatype Snapshot = Snapshot(nodes: seq<NodeRecord>, sources: seq<EffectSource>, points: seq<Connection>)

  /** The settings dictionaries the cache reads: map types (with their
      enumeration order), content types, biomes, map modifiers, and the
      OnlyDrawApplicableMods switch. */
  datatype Tables = Tables(
    maps: map<string, Map>, mapOrder: seq<string>,
    contentTypes: map<string, Content>, biomes: map<string, Biome>,
    mods: map<string, Mod>, onlyApplicable: bool)

  /** The enumeration order of the map types lists every map type of the
      dictionary exactly once, as enumerating a Dictionary does. */
  ghost predicate TablesValid(t: Tables) {
    && (forall i, j :: 0 <= i < j < |t.mapOrder| ==> t.mapOrder[i] != t.mapOrder[j])
    && (forall k | k in t.mapOrder :: k in t.maps)
    && (forall k | k in t.maps :: k in t.mapOrder)
  }

  /** The coordinates of a list of node records. */
  function Coordinates(nodes: seq<NodeRecord>): (r: set<Vector2i>)
    ensures forall i :: 0 <= i < |nodes| ==> nodes[i].coordinate in r
    ensures forall v | v in r :: exists i :: 0 <= i < |nodes| && nodes[i].coordinate == v
  {
    set i | 0 <= i < |nodes| :: nodes[i].coordinate
  }

  // ---------------------------------------------------------------------
  // Map types
  // ---------------------------------------------------------------------

  /** The position, in enumeration order, of the first map type whose
      MatchID accepts id; |order| when there is none (MatchIndexIs). */
  function MatchIndex(order: seq<string>, maps: map<string, Map>, id: string): (i: nat)
    reads maps.Values`ids
    ensures i <= |order|
    ensures i < |order| ==> order[i] in maps
  {
    if |order| == 0 then 0
    else if order[0] in maps && maps[order[0]].MatchID(id) then 0
    else 1 + MatchIndex(order[1..], maps, id)
  }

  /** No map type before the position matches, and the one at it does. */
  lemma {:induction false} MatchIndexIs(order: seq<string>, maps: map<string, Map>, id: string)
    ensures var i := MatchIndex(order, maps, id);
      && (forall j :: 0 <= j < i ==> !(order[j] in maps && maps[order[j]].MatchID(id)))
      && (i < |order| ==> maps[order[i]].MatchID(id))
    decreases |order|
  {
    if |order| > 0 && !(order[0] in maps && maps[order[0]].MatchID(id)) {
      MatchIndexIs(order[1..], maps, id);
      assert forall j :: 1 <= j < |order| ==> order[j] == order[1..][j - 1];
    }
  }

  /** The map type lookup of the cache: the entry under the short id, else
      the first map type that matches the id, else None, for which the
      cache makes a new default Map (ResolveMapTypeIs). */
  function ResolveMapType(t: Tables, shortId: string, id: string): Option<Map>
    reads t.maps.Values`ids
  {
    if shortId in t.maps then Some(t.maps[shortId])
    else
      var i := MatchIndex(t.mapOrder, t.maps, id);
      if i < |t.mapOrder| then Some(t.maps[t.mapOrder[i]]) else None
  }

  /** The lookup prefers the short id, and otherwise finds a map type that
      is listed and matches the id. */
  lemma ResolveMapTypeIs(t: Tables, shortId: string, id: string)
    ensures shortId in t.maps ==> ResolveMapType(t, shortId, id) == Some(t.maps[shortId])
    ensures shortId !in t.maps && ResolveMapType(t, shortId, id).Some? ==>
      exists i :: 0 <= i < |t.mapOrder| && t.mapOrder[i] in t.maps
        && t.maps[t.mapOrder[i]] == ResolveMapType(t, shortId, id).value
        && ResolveMapType(t, shortId, id).value.MatchID(id)
  {
    MatchIndexIs(t.mapOrder, t.maps, id);
  }

  /** The trimmed area id a new node is identified by. */
  function MapIdOf(r: NodeRecord): string {
    Trim(r.areaId)
  }

  /** The id with the "_NoBoss" suffix removed, the key tried first. */
  function ShortIdOf(r: NodeRecord): string {
    Replace(Trim(r.areaId), "_NoBoss", "")
  }

  /** The lookup finds no map type only when neither the short id nor any
      map type of the dictionary matches. */
  lemma UnresolvedMatchesNothing(t: Tables, shortId: string, id: string)
    requires TablesValid(t)
    requires ResolveMapType(t, shortId, id).None?
    ensures shortId !in t.maps
    ensures forall k | k in t.maps :: !t.maps[k].MatchID(id)
  {
    MatchIndexIs(t.mapOrder, t.maps, id);
    forall k | k in t.maps ensures !t.maps[k].MatchID(id) {
      var j :| 0 <= j < |t.mapOrder| && t.mapOrder[j] == k;
    }
  }

  /** Conversely, when some map type of the dictionary matches, the lookup
      finds one. */
  lemma AnyMatchResolves(t: Tables, shortId: string, id: string, k: string)
    requires TablesValid(t)
    requires k in t.maps && t.maps[k].MatchID(id)
    ensures ResolveMapType(t, shortId, id).Some?
  {
    var j :| 0 <= j < |t.mapOrder| && t.mapOrder[j] == k;
    MatchIndexIs(t.mapOrder, t.maps, id);
  }

  /** A resolved map type found by matching is the first one in enumeration
      order that matches. */
  lemma ResolvedIsFirstMatch(t: Tables, shortId: string, id: string, j: nat)
    requires shortId !in t.maps
    requires j < |t.mapOrder| && t.mapOrder[j] in t.maps && t.maps[t.mapOrder[j]].MatchID(id)
    ensures ResolveMapType(t, shortId, id).Some?
    ensures var i := MatchIndex(t.mapOrder, t.maps, id);
      i <= j && ResolveMapType(t, shortId, id) == Some(t.maps[t.mapOrder[i]])
  {
    MatchIndexIs(t.mapOrder, t.maps, id);
  }

  // ---------------------------------------------------------------------
  // Tower effects
  // ---------------------------------------------------------------------

  /** Vector2.Distance(a, b) <= 11, on the integer grid. */
  predicate WithinRadius(a: Vector2i, b: Vector2i) {
    (a.x - b.x) * (a.x - b.x) + (a.y - b.y) * (a.y - b.y) <= 121
  }

  /** One tower effect that reaches a node: the modifier key (the id as
      text), the id, the value and the tower's coordinate. */
  datatype Contribution = Contribution(key: string, modId: int, value: int, source: Vector2i)

  /** An effect counts when its modifier is defined and its value is not
      zero. */
  predicate Counts(e: SourceEffect, mods: map<string, ModInfo>) {
    IntToString(e.modId) in mods && e.value != 0
  }

  function ContributionOf(e: SourceEffect, source: Vector2i): Contribution {
    Contribution(IntToString(e.modId), e.modId, e.value, source)
  }

  /** The counting effects of one tower, in order. */
  function SourceContributions(source: Vector2i, effects: seq<SourceEffect>, mods: map<string, ModInfo>): seq<Contribution>
    decreases |effects|
  {
    if |effects| == 0 then []
    else
      var rest := SourceContributions(source, effects[..|effects| - 1], mods);
      var e := effects[|effects| - 1];
      if Counts(e, mods) then rest + [ContributionOf(e, source)] else rest
  }

  /** The counting effects of every tower within radius 11 of a node, tower
      by tower and effect by effect. */
  function Contributions(sources: seq<EffectSource>, at: Vector2i, mods: map<string, ModInfo>): seq<Contribution>
    decreases |sources|
  {
    if |sources| == 0 then []
    else
      var rest := Contributions(sources[..|sources| - 1], at, mods);
      var s := sources[|sources| - 1];
      if WithinRadius(s.coordinate, at) then rest + SourceContributions(s.coordinate, s.effects, mods) else rest
  }

  /** Exactly the counting effects of one tower contribute, with its
      coordinate. */
  lemma {:induction false} SourceContributionsAre(source: Vector2i, effects: seq<SourceEffect>, mods: map<string, ModInfo>, c: Contribution)
    ensures c in SourceContributions(source, effects, mods) <==>
      exists j :: 0 <= j < |effects| && Counts(effects[j], mods) && c == ContributionOf(effects[j], source)
    decreases |effects|
  {
    if |effects| > 0 {
      var init := effects[..|effects| - 1];
      SourceContributionsAre(source, init, mods, c);
      assert forall j :: 0 <= j < |init| ==> init[j] == effects[j];
    }
  }

  /** Every contribution comes from a tower within radius 11. */
  lemma {:induction false} ContributionsSound(sources: seq<EffectSource>, at: Vector2i, mods: map<string, ModInfo>, c: Contribution)
    requires c in Contributions(sources, at, mods)
    ensures exists i :: (0 <= i < |sources| && WithinRadius(sources[i].coordinate, at)
      && c in SourceContributions(sources[i].coordinate, sources[i].effects, mods))
    decreases |sources|
  {
    var init, last := sources[..|sources| - 1], sources[|sources| - 1];
    if c in Contributions(init, at, mods) {
      ContributionsSound(init, at, mods, c);
      var i :| 0 <= i < |init| && WithinRadius(init[i].coordinate, at)
        && c in SourceContributions(init[i].coordinate, init[i].effects, mods);
      assert sources[i] == init[i];
    } else {
      assert sources[|sources| - 1] == last;
    }
  }

  /** Every counting effect of a tower within radius 11 contributes. */
  lemma {:induction false} ContributionsComplete(sources: seq<EffectSource>, at: Vector2i, mods: map<string, ModInfo>, c: Contribution, i: nat)
    requires i < |sources| && WithinRadius(sources[i].coordinate, at)
    requires c in SourceContributions(sources[i].coordinate, sources[i].effects, mods)
    ensures c in Contributions(sources, at, mods)
    decreases |sources|
  {
    var init := sources[..|sources| - 1];
    if i < |init| {
      assert init[i] == sources[i];
      ContributionsComplete(init, at, mods, c, i);
    }
  }

  /** Exactly the counting effects of the towers within radius 11
      contribute. */
  lemma ContributionsAre(sources: seq<EffectSource>, at: Vector2i, mods: map<string, ModInfo>, c: Contribution)
    ensures c in Contributions(sources, at, mods) <==>
      exists i :: 0 <= i < |sources| && WithinRadius(sources[i].coordinate, at)
        && c in SourceContributions(sources[i].coordinate, sources[i].effects, mods)
  {
    if c in Contributions(sources, at, mods) {
      ContributionsSound(sources, at, mods, c);
    }
    if exists i :: 0 <= i < |sources| && WithinRadius(sources[i].coordinate, at)
        && c in SourceContributions(sources[i].coordinate, sources[i].effects, mods) {
      var i :| 0 <= i < |sources| && WithinRadius(sources[i].coordinate, at)
        && c in SourceContributions(sources[i].coordinate, sources[i].effects, mods);
      ContributionsComplete(sources, at, mods, c, i);
    }
  }

  /** Every contribution comes from a defined modifier, under the key the
      modifier's id prints as, with a non-zero value. */
  lemma ContributionIsCounted(sources: seq<EffectSource>, at: Vector2i, mods: map<string, ModInfo>, c: Contribution)
    requires c in Contributions(sources, at, mods)
    ensures c.key in mods && c.value != 0 && c.key == IntToString(c.modId)
    ensures exists i :: 0 <= i < |sources| && WithinRadius(sources[i].coordinate, at) && c.source == sources[i].coordinate
  {
    ContributionsAre(sources, at, mods, c);
    var i :| 0 <= i < |sources| && WithinRadius(sources[i].coordinate, at)
      && c in SourceContributions(sources[i].coordinate, sources[i].effects, mods);
    SourceContributionsAre(sources[i].coordinate, sources[i].effects, mods, c);
  }

  /** What the effect loops read of a map modifier. */
  datatype ModInfo = ModInfo(name: string, description: string, showOnMap: bool, requiredContent: string)

  function InfoOf(m: Mod): ModInfo
    reads m`name, m`description, m`showOnMap, m`requiredContent
  {
    ModInfo(m.name, m.description, m.showOnMap, m.requiredContent)
  }

  /** The modifier table as the effect loops see it: it does not change
      while they run. */
  function Infos(mods: map<string, Mod>): (r: map<string, ModInfo>)
    reads mods.Values`name, mods.Values`description, mods.Values`showOnMap, mods.Values`requiredContent
    ensures r.Keys == mods.Keys
    ensures forall k | k in mods :: r[k] == InfoOf(mods[k])
  {
    map k | k in mods :: InfoOf(mods[k])
  }

  /** The names of a node's content. */
  function ContentNames(content: map<string, Content>): (r: set<string>)
    reads content.Values`name
  {
    set k | k in content :: content[k].name
  }

  /** Some content name contains sub. */
  predicate AnyContentNamed(content: set<string>, sub: string) {
    exists n | n in content :: Contains(n, sub)
  }

  /** Enabled of a new effect: the modifier is shown on maps, unless only
      applicable modifiers are drawn and its required content is named but
      no content of the node has a name containing it. */
  predicate ShownFor(m: ModInfo, content: set<string>, onlyApplicable: bool) {
    m.showOnMap && !(onlyApplicable && m.requiredContent != "" && !AnyContentNamed(content, m.requiredContent))
  }

  /** The effect a first contribution creates. */
  function NewTally(c: Contribution, m: ModInfo, content: set<string>, onlyApplicable: bool): Tally {
    Tally(m.name, m.description, c.value, c.modId, ShownFor(m, content, onlyApplicable), [c.source])
  }

  /** One contribution: a repeat adds its value (when accumulate holds, with
      32-bit wrap-around) and appends its tower; a first one creates the
      effect. */
  function Contribute(acc: map<string, Tally>, c: Contribution, accumulate: bool,
                      mods: map<string, ModInfo>, content: set<string>, onlyApplicable: bool): map<string, Tally>
  {
    if c.key in acc then
      var e := acc[c.key];
      acc[c.key := e.(value1 := if accumulate then WrapInt32(e.value1 + c.value) else e.value1,
                      sources := e.sources + [c.source])]
    else if c.key in mods then acc[c.key := NewTally(c, mods[c.key], content, onlyApplicable)]
    else acc
  }

  /** The contributions applied one after another. */
  function Apply(acc: map<string, Tally>, cs: seq<Contribution>, accumulate: bool,
                 mods: map<string, ModInfo>, content: set<string>, onlyApplicable: bool): map<string, Tally>
    decreases |cs|
  {
    if |cs| == 0 then acc
    else Contribute(Apply(acc, cs[..|cs| - 1], accumulate, mods, content, onlyApplicable), cs[|cs| - 1],
                    accumulate, mods, content, onlyApplicable)
  }

  lemma {:induction false} ApplyAppend(acc: map<string, Tally>, a: seq<Contribution>, b: seq<Contribution>, accumulate: bool,
                                       mods: map<string, ModInfo>, content: set<string>, onlyApplicable: bool)
    ensures Apply(acc, a + b, accumulate, mods, content, onlyApplicable)
         == Apply(Apply(acc, a, accumulate, mods, content, onlyApplicable), b, accumulate, mods, content, onlyApplicable)
    decreases |b|
  {
    if |b| == 0 {
      assert a + b == a;
    } else {
      assert (a + b)[..|a + b| - 1] == a + b[..|b| - 1];
      ApplyAppend(acc, a, b[..|b| - 1], accumulate, mods, content, onlyApplicable);
    }
  }

  /** One more effect of a tower applies its contribution when it counts. */
  lemma SourceContributionsStep(start: map<string, Tally>, source: Vector2i, effects: seq<SourceEffect>, j: nat, accumulate: bool,
                                mods: map<string, ModInfo>, content: set<string>, onlyApplicable: bool)
    requires j < |effects|
    ensures var before := Apply(start, SourceContributions(source, effects[..j], mods), accumulate, mods, content, onlyApplicable);
      Apply(start, SourceContributions(source, effects[..j + 1], mods), accumulate, mods, content, onlyApplicable)
        == if Counts(effects[j], mods) then Contribute(before, ContributionOf(effects[j], source), accumulate, mods, content, onlyApplicable)
           else before
  {
    var done := SourceContributions(source, effects[..j], mods);
    assert effects[..j + 1][..j] == effects[..j];
    var c := ContributionOf(effects[j], source);
    assert (done + [c])[..|done|] == done;
  }

  /** One more tower applies its effects when it lies within radius 11. */
  lemma ContributionsStep(sources: seq<EffectSource>, i: nat, at: Vector2i, accumulate: bool,
                          mods: map<string, ModInfo>, content: set<string>, onlyApplicable: bool)
    requires i < |sources|
    ensures var before := Apply(map[], Contributions(sources[..i], at, mods), accumulate, mods, content, onlyApplicable);
      Apply(map[], Contributions(sources[..i + 1], at, mods), accumulate, mods, content, onlyApplicable)
        == if WithinRadius(sources[i].coordinate, at)
           then Apply(before, SourceContributions(sources[i].coordinate, sources[i].effects, mods), accumulate, mods, content, onlyApplicable)
           else before
  {
    assert sources[..i + 1][..i] == sources[..i];
    ApplyAppend(map[], Contributions(sources[..i], at, mods),
                SourceContributions(sources[i].coordinate, sources[i].effects, mods), accumulate, mods, content, onlyApplicable);
  }

  /** The contributions of key k, in order. */
  function OfKey(cs: seq<Contribution>, k: string): (r: seq<Contribution>)
    ensures forall i :: 0 <= i < |r| ==> r[i].key == k
    decreases |cs|
  {
    if |cs| == 0 then []
    else
      var rest := OfKey(cs[..|cs| - 1], k);
      if cs[|cs| - 1].key == k then rest + [cs[|cs| - 1]] else rest
  }

  /** The towers of a list of contributions. */
  function SourcesOf(cs: seq<Contribution>): (r: seq<Vector2i>)
    ensures |r| == |cs|
    ensures forall i :: 0 <= i < |cs| ==> r[i] == cs[i].source
  {
    if |cs| == 0 then [] else SourcesOf(cs[..|cs| - 1]) + [cs[|cs| - 1].source]
  }

  /** The values of a list of contributions, added up. */
  function ValueSum(cs: seq<Contribution>): int {
    if |cs| == 0 then 0 else ValueSum(cs[..|cs| - 1]) + cs[|cs| - 1].value
  }

  /** The effect a list of contributions to one key adds up to: the
      modifier's name and description, the first contribution's id, the
      enabled flag of the modifier, every contribution's tower in order,
      and as Value1 the first value, or the wrapped sum of all values when
      repeats accumulate. */
  function Expected(ks: seq<Contribution>, m: ModInfo, accumulate: bool, content: set<string>, onlyApplicable: bool): Tally
    requires |ks| > 0
  {
    Tally(m.name, m.description, if accumulate then WrapInt32(ValueSum(ks)) else ks[0].value, ks[0].modId,
          ShownFor(m, content, onlyApplicable), SourcesOf(ks))
  }

  /** Starting from no effects, an effect exists exactly for the keys the
      contributions name, when all of them are defined. */
  lemma {:induction false} TalliedKeys(cs: seq<Contribution>, accumulate: bool,
                                       mods: map<string, ModInfo>, content: set<string>, onlyApplicable: bool, k: string)
    requires forall i :: 0 <= i < |cs| ==> cs[i].key in mods
    ensures k in Apply(map[], cs, accumulate, mods, content, onlyApplicable) <==> |OfKey(cs, k)| > 0
    ensures |OfKey(cs, k)| > 0 ==> k in mods
    decreases |cs|
  {
    if |cs| > 0 {
      var init := cs[..|cs| - 1];
      assert forall i :: 0 <= i < |init| ==> init[i] == cs[i];
      TalliedKeys(init, accumulate, mods, content, onlyApplicable, k);
    }
  }

  /** Starting from no effects, the effect of each contributed key is what
      its contributions add up to. */
  lemma {:induction false} TalliesAre(cs: seq<Contribution>, accumulate: bool,
                                      mods: map<string, ModInfo>, content: set<string>, onlyApplicable: bool, k: string)
    requires forall i :: 0 <= i < |cs| ==> cs[i].key in mods && IsInt32(cs[i].value)
    requires |OfKey(cs, k)| > 0
    ensures k in mods && k in Apply(map[], cs, accumulate, mods, content, onlyApplicable)
    ensures Apply(map[], cs, accumulate, mods, content, onlyApplicable)[k]
         == Expected(OfKey(cs, k), mods[k], accumulate, content, onlyApplicable)
    decreases |cs|
  {
    TalliedKeys(cs, accumulate, mods, content, onlyApplicable, k);
    var init := cs[..|cs| - 1];
    var c := cs[|cs| - 1];
    assert forall i :: 0 <= i < |init| ==> init[i] == cs[i];
    var before := Apply(map[], init, accumulate, mods, content, onlyApplicable);
    assert Apply(map[], cs, accumulate, mods, content, onlyApplicable)
        == Contribute(before, c, accumulate, mods, content, onlyApplicable);
    var ks := OfKey(init, k);
    if c.key != k {
      TalliesAre(init, accumulate, mods, content, onlyApplicable, k);
    } else if |ks| > 0 {
      TalliesAre(init, accumulate, mods, content, onlyApplicable, k);
      assert OfKey(cs, k) == ks + [c];
      ExpectedAppend(ks, c, mods[k], accumulate, content, onlyApplicable);
    } else {
      TalliedKeys(init, accumulate, mods, content, onlyApplicable, k);
      assert OfKey(cs, k) == [c];
      ExpectedSingle(c, mods[k], accumulate, content, onlyApplicable);
    }
  }

  /** One more contribution to a key appends its tower and, when repeats
      accumulate, adds its value with wrap-around. */
  lemma ExpectedAppend(ks: seq<Contribution>, c: Contribution, m: ModInfo, accumulate: bool,
                       content: set<string>, onlyApplicable: bool)
    requires |ks| > 0
    ensures var e := Expected(ks, m, accumulate, content, onlyApplicable);
      Expected(ks + [c], m, accumulate, content, onlyApplicable)
        == e.(value1 := if accumulate then WrapInt32(e.value1 + c.value) else e.value1, sources := e.sources + [c.source])
  {
    assert (ks + [c])[..|ks|] == ks;
    if accumulate {
      WrapInt32Add(ValueSum(ks), c.value);
    }
  }

  /** The first contribution to a key creates the effect it adds up to. */
  lemma ExpectedSingle(c: Contribution, m: ModInfo, accumulate: bool, content: set<string>, onlyApplicable: bool)
    requires IsInt32(c.value)
    ensures Expected([c], m, accumulate, content, onlyApplicable) == NewTally(c, m, content, onlyApplicable)
  {
    assert [c][..0] == [];
    assert ValueSum([c]) == c.value;
    assert SourcesOf([c]) == [c.source];
  }

  /** Adding to a wrapped value wraps the sum. */
  lemma WrapInt32Add(a: int, b: int)
    ensures WrapInt32(WrapInt32(a) + b) == WrapInt32(a + b)
  {
    var m := 0x1_0000_0000;
    var wa := WrapInt32(a);
    var r1 := WrapInt32(wa + b);
    var r2 := WrapInt32(a + b);
    var p := (a - wa) / m;
    var q1 := (wa + b - r1) / m;
    var q2 := (a + b - r2) / m;
    assert a - wa == m * p;
    assert wa + b - r1 == m * q1;
    assert a + b - r2 == m * q2;
    assert r1 - r2 == m * (q2 - q1 - p);
    WrapUnique(r1, r2, q2 - q1 - p);
  }

  /** Two 32-bit values a multiple of 2^32 apart are equal. */
  lemma WrapUnique(x: int, y: int, q: int)
    requires IsInt32(x) && IsInt32(y)
    requires x - y == 0x1_0000_0000 * q
    ensures x == y
  {
  }

  /** A 32-bit value wraps to itself. */
  lemma WrapInt32Of(v: int)
    requires IsInt32(v)
    ensures WrapInt32(v) == v
  {
  }

  // ---------------------------------------------------------------------
  // Content and biomes
  // ---------------------------------------------------------------------

  /** The content a node starts with: the Corruption content type, under
      its own name, when the node shows corruption and the type is
      defined. */
  function CorruptionContent(contentTypes: map<string, Content>, corrupted: bool): map<string, Content>
    reads contentTypes.Values`name
  {
    if corrupted && "Corruption" in contentTypes
    then map[contentTypes["Corruption"].name := contentTypes["Corruption"]]
    else map[]
  }

  /** CacheNewMapNode's content loop: every non-empty name with a content
      type adds that type under the type's own name, unless the name is
      taken. */
  function NewContent(start: map<string, Content>, contentTypes: map<string, Content>, names: seq<string>): map<string, Content>
    reads contentTypes.Values`name
    decreases |names|
  {
    if |names| == 0 then start
    else
      var acc := NewContent(start, contentTypes, names[..|names| - 1]);
      var n := names[|names| - 1];
      if n != "" && n in contentTypes && contentTypes[n].name !in acc
      then acc[contentTypes[n].name := contentTypes[n]]
      else acc
  }

  /** A new node's content holds content types only, each under its own
      name, and one for every non-empty name that has a content type. */
  lemma {:induction false} NewContentIsTypes(start: map<string, Content>, contentTypes: map<string, Content>, names: seq<string>)
    requires forall k | k in start :: start[k] in contentTypes.Values && start[k].name == k
    ensures var r := NewContent(start, contentTypes, names);
      && start.Keys <= r.Keys
      && (forall k | k in r :: r[k] in contentTypes.Values && r[k].name == k)
      && (forall i :: 0 <= i < |names| && names[i] != "" && names[i] in contentTypes ==> contentTypes[names[i]].name in r)
    decreases |names|
  {
    if |names| > 0 {
      var init := names[..|names| - 1];
      NewContentIsTypes(start, contentTypes, init);
      assert forall i :: 0 <= i < |init| ==> init[i] == names[i];
    }
  }

  /** The Corruption start satisfies the same shape. */
  lemma CorruptionContentIsType(contentTypes: map<string, Content>, corrupted: bool)
    ensures var s := CorruptionContent(contentTypes, corrupted);
      forall k | k in s :: s[k] in contentTypes.Values && s[k].name == k
    ensures corrupted && "Corruption" in contentTypes ==>
      contentTypes["Corruption"].name in CorruptionContent(contentTypes, corrupted)
  {
  }

  /** Why a cache refresh stops: RefreshCachedMapNode's indexer finds no
      content type for a name, or RecalculateWeights takes Max or Min of
      nothing. */
  datatype Fault = ContentTypeNotFound(name: string) | NoElements

  /** RefreshCachedMapNode's content loop: every non-empty name adds its
      content type under the name itself, unless the name is taken; a name
      without a content type stops the loop with what has been added so
      far. */
  function RefreshedContent(start: map<string, Content>, contentTypes: map<string, Content>, names: seq<string>)
    : (r: (map<string, Content>, Option<string>))
    decreases |names|
  {
    if |names| == 0 then (start, None)
    else
      var (acc, missing) := RefreshedContent(start, contentTypes, names[..|names| - 1]);
      var n := names[|names| - 1];
      if missing.Some? || n == "" then (acc, missing)
      else if n !in contentTypes then (acc, Some(n))
      else if n in acc then (acc, None)
      else (acc[n := contentTypes[n]], None)
  }

  /** A refresh fails exactly on the first non-empty name without a content
      type; otherwise every non-empty name is a key, holding its content
      type unless the start already held that key. */
  lemma {:induction false} RefreshedContentIs(start: map<string, Content>, contentTypes: map<string, Content>, names: seq<string>)
    ensures var (r, missing) := RefreshedContent(start, contentTypes, names);
      && (missing.None? <==> forall i :: 0 <= i < |names| && names[i] != "" ==> names[i] in contentTypes)
      && (missing.Some? ==> exists i :: 0 <= i < |names| && names[i] == missing.value && missing.value != ""
                                && missing.value !in contentTypes
                                && forall j :: 0 <= j < i && names[j] != "" ==> names[j] in contentTypes)
      && start.Keys <= r.Keys
      && (forall k | k in start :: r[k] == start[k])
      && (forall k | k in r && k !in start :: k in contentTypes && r[k] == contentTypes[k])
      && (missing.None? ==> forall i :: 0 <= i < |names| && names[i] != "" ==> names[i] in r)
    decreases |names|
  {
    if |names| > 0 {
      var init := names[..|names| - 1];
      RefreshedContentIs(start, contentTypes, init);
      assert forall i :: 0 <= i < |init| ==> init[i] == names[i];
    }
  }

  /** The non-empty biome names of a map type, in order. */
  function NonEmpty(names: seq<string>): (r: seq<string>)
    ensures forall i :: 0 <= i < |r| ==> r[i] != ""
    decreases |names|
  {
    if |names| == 0 then []
    else
      var rest := NonEmpty(names[..|names| - 1]);
      if names[|names| - 1] != "" then rest + [names[|names| - 1]] else rest
  }

  /** NonEmpty is the filter: it keeps a single name exactly when it is not
      empty, and distributes over concatenation, so it keeps every
      non-empty name, and only those, in their order. */
  lemma {:induction false} NonEmptyIsFilter(a: seq<string>, b: seq<string>)
    ensures NonEmpty(a + b) == NonEmpty(a) + NonEmpty(b)
    ensures |b| == 1 ==> NonEmpty(b) == if b[0] == "" then [] else [b[0]]
    decreases |b|
  {
    if |b| == 0 {
      assert a + b == a;
    } else {
      var init := b[..|b| - 1];
      assert (a + b)[..|a + b| - 1] == a + init;
      NonEmptyIsFilter(a, init);
      assert [] + b == b;
      assert b[..0] == [];
    }
  }

  /** CacheNewMapNode's biome loop: every name with a biome definition adds
      it under the definition's name, unless that name is taken. */
  function NewBiomes(biomes: map<string, Biome>, names: seq<string>): map<string, Biome>
    reads biomes.Values`name
    decreases |names|
  {
    if |names| == 0 then map[]
    else
      var acc := NewBiomes(biomes, names[..|names| - 1]);
      var n := names[|names| - 1];
      if n in biomes && biomes[n].name !in acc then acc[biomes[n].name := biomes[n]] else acc
  }

  /** A new node's biomes hold biome definitions only, each under its own
      name, and one for every listed name that is defined. */
  lemma {:induction false} NewBiomesAreDefined(biomes: map<string, Biome>, names: seq<string>)
    ensures forall k | k in NewBiomes(biomes, names) :: NewBiomes(biomes, names)[k] in biomes.Values
    ensures forall k | k in NewBiomes(biomes, names) :: NewBiomes(biomes, names)[k].name == k
    ensures forall i :: 0 <= i < |names| && names[i] in biomes ==> biomes[names[i]].name in NewBiomes(biomes, names)
    decreases |names|
  {
    if |names| > 0 {
      var init := names[..|names| - 1];
      NewBiomesAreDefined(biomes, init);
      assert forall i :: 0 <= i < |init| ==> init[i] == names[i];
      var n := names[|names| - 1];
      var acc := NewBiomes(biomes, init);
      if n in biomes && biomes[n].name !in acc {
        var b := biomes[n];
        assert b in biomes.Values;
        assert NewBiomes(biomes, names) == acc[b.name := b];
      } else {
        assert NewBiomes(biomes, names) == acc;
      }
    }
  }

  /** The biome names of the map type stored under the map id (the trimmed
      id, not the short one), or none. */
  function BiomeNames(t: Tables, mapId: string): seq<string>
    reads t.maps.Values`biomes
  {
    if mapId in t.maps then NonEmpty(t.maps[mapId].biomes) else []
  }
}
