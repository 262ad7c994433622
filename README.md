# ExileMaps atlas cache, modelled in Dafny

ExileMaps is an ExileCore plugin that draws extra information over the atlas
of Path of Exile 2. At its centre is the **map cache**: one `Node` per atlas
coordinate. The cache is built and refreshed from what the atlas panel shows:
the node descriptions, the tower effect sources and the connection points.
Each node has these parts:

- a **map type**, looked up in the settings;
- its **content** and **biomes**;
- the **effects** of the towers within radius 11;
- its **neighbours**;
- a **weight**, the sum of the weights of all the above.

The statistics of the distinct weights of the unvisited nodes scale the node
colours. These are the average, the maximum after skipping the 10 largest, and
the minimum after skipping the 5 smallest.

The model also covers:

- the settings classes `Map`, `Mod`, `Content` and `Effect`, whose setters raise
  `PropertyChanged`;
- the `ObservableDictionary` the settings are kept in, and its
  `ToObservableDictionary` extensions;
- the JSON converters for colours and grid coordinates;
- colour interpolation;
- the four feature filters of `Render`;
- the waypoint operations.

Modules:

| file | module | what it holds |
|---|---|---|
| `wrappers.dfy` | `Wrappers` | `Option` and `Result` |
| `text.dfy` | `Text` | the .NET string and integer operations the code relies on: `Trim`, `Split`, `Join`, `Replace`, `Contains`, `Int32.Parse`, `ToString`, 32-bit wrap-around |
| `codecs.dfy` | `Codecs` | `Color`, `Vector2i`, `Color.FromArgb`, and the two JSON converters with their round trips |
| `colorutils.dfy` | `ColorUtils` | `InterpolateColor` |
| `collections.dfy` | `Collections` | sums and multisets of map values (helpers) |
| `observable.dfy` | `Observable` | `ObservableDictionary` as a class with an event log, and the extension methods |
| `definitions.dfy` | `Definitions` | the `Map`, `Mod`, `Content` and `Biome` classes |
| `effect.dfy` | `Effects` | the `Effect` class |
| `node.dfy` | `Nodes` | the `Node` class and `RecalculateWeight` |
| `records.dfy` | `Records` | what the cache reads (node records, tower effect sources, connection points, settings tables), plus the value-level rules the cache applies |
| `building.dfy` | `Building` | the loops that fill a node's content, biomes and effects, each proved to compute its rule in `Records` |
| `weights.dfy` | `Weights` | `Sum`, `Max`, `Min` and the `Skip` of a sorted sequence, over the set of distinct weights |
| `atlas.dfy` | `Atlas` | the cache as a class, `AtlasCache`: `RefreshMapCache`, `CacheNewMapNode`, `RefreshCachedMapNode`, `CacheMapConnections`, `RecalculateWeights`, and the waypoint operations |
| `render.dfy` | `Render` | the node selection of `Render` |

Objects the code updates in place are classes with `modifies` frames:

- the cache;
- nodes;
- effects;
- map types, modifiers and content types;
- the observable dictionary.

Every `PropertyChanged` a setter raises is appended to a `changes` log. Every
event the dictionary raises is appended to its `log`. Loops are `while` loops
whose invariants tie them to a specification function in `Records`. That
function is then characterised by lemmas, for example:

- which tower effects reach a node, and what each effect adds up to;
- which content and biomes a node gets.

Where the code does something other than what its names suggest, the model
follows the code:

- **The unknown-content fault.** `RefreshCachedMapNode` looks up a refreshed
  node's content with the indexer `ContentTypes[content.Name]`, outside any
  `try` (ExileMaps.cs:625-627). An unknown content name throws. That exception
  aborts `RefreshMapCache` and leaves `refreshingCache` set. It does not just
  skip one record. The model returns `ContentTypeNotFound` and stops the
  refresh there (`Atlas.AtlasCache.RefreshMapCache`).
- **The weight statistics with 1 to 10 weights.** `RecalculateWeights` uses
  `Skip(10).Max()` and `Skip(5).Min()` (ExileMaps.cs:511-512). With 1 to 10
  distinct unvisited weights, `Max()` runs on an empty sequence and throws.
  It does not fall back to the true maximum. The model returns `NoElements`
  in exactly those cases, after the average has been stored.
- **Content keys.** A new node keeps its content under the content type's own
  `Name` (ExileMaps.cs:545). A refreshed node keeps it under the element's
  content name (ExileMaps.cs:627).
- **Accumulating repeated effects.** The two operations decide differently
  whether a repeated effect adds its value:
  - a new node uses `!IsTower || !IsVisited` (ExileMaps.cs:572);
  - a refreshed node uses `IsTower || !IsVisited` (ExileMaps.cs:637).

## Model

| member | source | states |
|---|---|---|
| Render.Selected | ExileMaps.cs:150-153 | A node passes the chain of four filters iff: a visited unlocked node is kept only when visited nodes are processed; a hidden non-tower node only when hidden nodes are processed; and its lock state is one that is processed. |
| Render.SelectedNodes | ExileMaps.cs:150-153 | The selected nodes are cached nodes, and a cached node is selected iff it passes the four filters. |
| Render.AllFeaturesSelectAll | ExileMaps.cs:150-153 | With every feature switch on, every cached node is selected. |
| Render.NoLockStateSelectsNone | ExileMaps.cs:152-153 | With both the locked and the unlocked switch off, no node is selected. |
| Render.MoreFeaturesSelectMore | ExileMaps.cs:150-153 | Turning a switch on never drops a node from the selection. |
| Atlas.AtlasCache.constructor | ExileMaps.cs:44-49 | The cache starts empty, with max weight 20, min weight -20, average 0, and neither refresh flag set. |
| Atlas.AtlasCache.RefreshMapCache | ExileMaps.cs:464-499 | Clears the cache when asked. Keeps every cached node under its coordinate otherwise. Any node it adds is new. Without a fault, the keys are the old keys (or none) plus the coordinates of every record, the statistics are those of the distinct unvisited weights, and both refresh flags are cleared. With a fault, `refreshingCache` stays set. |
| Atlas.AtlasCache.Rebuild | ExileMaps.cs:466-486 | The optional clear, then the record loop. Old nodes stay under their keys unless cleared, and without a fault every record's coordinate is a key. |
| Atlas.AtlasCache.CacheRecords | ExileMaps.cs:478-486 | The record loop stops at the first fault. Every old key keeps its node object, and any node it adds is new. Without a fault, the keys grow by exactly the records' coordinates. |
| Atlas.AtlasCache.CacheRecord | ExileMaps.cs:479-484 | One record. The cached node is refreshed, or a new node is cached, and the node is then linked. Only that node and the cache map may change. The keys grow by exactly the record's coordinate, and no cached node is replaced. A new coordinate never faults. A cached one faults iff it is unvisited and a content name has no type, and the fault names it. A cached node keeps its name, id and biomes, and a visited one also keeps its content, effects and weight. On a fault the node has the record's flags and addresses, the looked-up map type and the content filled up to the missing name, and keeps its effects and weight. Without a fault, the node is built from the record when new and refreshed from it otherwise. Its links are what CacheMapConnections makes of the links it had. |
| Atlas.AtlasCache.Connect | ExileMaps.cs:484 | CacheMapConnections on the placed node. It leaves everything the node's state holds as it was and sets the links as CacheMapConnections states. |
| Atlas.AtlasCache.PlaceRecord | ExileMaps.cs:479-482 | The choice between refresh and add, made on whether the coordinate is cached. A cached node stays under its key, keeps its links, name, id and biomes, and faults exactly as RefreshCachedMapNode does; a visited one also keeps its content, effects and weight. On a fault the node has the record's flags and addresses, the looked-up map type and the partly refilled content, and keeps its effects and weight. A new node is fresh and has no links. Without a fault, the node is built or refreshed from the record, and an unvisited node's effects carry their due weights. |
| Atlas.AtlasCache.PlaceCached | ExileMaps.cs:479-480 | The refresh branch: the node cached under the coordinate is refreshed in place. It faults iff it is unvisited and a content name has no type. It keeps its links, name, id and biomes, and, when visited, its content, effects and weight. On a fault it keeps its effects and weight; without one it is refreshed from the record. |
| Atlas.RefreshRecord | ExileMaps.cs:480 | RefreshCachedMapNode on a cached node whose coordinate is the record's. The fault, the refreshed state and the fault-path state are those of RefreshCachedMapNode, stated in terms of what the record was looked up as. |
| Atlas.AtlasCache.AddNewRecord | ExileMaps.cs:482 | A coordinate not yet cached gets one fresh node, built from the record as CacheNewMapNode builds it. No other entry changes. |
| Atlas.AtlasCache.FinishRefresh | ExileMaps.cs:493-497 | Runs RecalculateWeights. Without a fault, both refresh flags are cleared and the statistics are stored. With one, the flags stay as they were. |
| Atlas.AtlasCache.RecalculateWeights | ExileMaps.cs:501-513 | An empty cache changes nothing. Otherwise it faults iff there are 1 to 10 distinct unvisited weights. With no fault, the average, max and min summarise those weights. With a fault, only the average was stored. |
| Atlas.Statistics | ExileMaps.cs:506-512 | No weights give 0, 0, 0. Otherwise the result is `NoElements` iff there are at most 10 weights. The statistics are the mean, the weight with exactly 10 weights above it, and the weight with exactly 5 below it. |
| Atlas.AtlasCache.CacheNewMapNode | ExileMaps.cs:515-602 | Returns 1 and caches a new node iff the coordinate is free. Otherwise it returns 0 and leaves the cache unchanged. The new node takes its flags, addresses, name, trimmed id and resolved map type from the record. An unvisited node also takes the content and biomes of the settings. Its effects are the tower effects when it is unvisited or a tower, and none otherwise, and an unvisited node's effects carry their due weights. Its weight is the recomputed weight. |
| Atlas.NewNode | ExileMaps.cs:517-597 | The node CacheNewMapNode builds. It has the record's identity and flags and the looked-up map type (or a fresh default map). Its content and biomes are empty when visited. Its effects are the tower effects when it is unvisited or a tower, and none otherwise. A repeated effect adds its value only when the node is not a visited tower, so a visited tower keeps each effect's first value and still lists every source. Its weight is recomputed. |
| Atlas.BaseNode | ExileMaps.cs:517-562 | The object initialiser plus the content and biome blocks: record fields, map type, and content/biomes only for an unvisited node; no effects yet. |
| Atlas.LookUpMapType | ExileMaps.cs:531 | The map type under the short id, else the first map type whose MatchID accepts the id, else a fresh default `Map`. |
| Atlas.FillContent | ExileMaps.cs:535-562 | An unvisited node gets the content and biomes of the rules NewContent and NewBiomes. A visited node keeps what it has. |
| Atlas.AddTowerEffects | ExileMaps.cs:564-596 | Effects are built only for an unvisited node or a tower. Repeats accumulate when `!IsTower \|\| !IsVisited`. The resulting effects equal the tower-effect rule. |
| Atlas.FillEffects | ExileMaps.cs:566-591 | The node's effects become a dictionary of new effects equal to the tower-effect rule. |
| Atlas.WeighNew | ExileMaps.cs:564-597 | The effects of a new node, then RecalculateWeight. Its weight is the computed weight, and an unvisited node's effects carry their due weights. |
| Atlas.RefreshCachedMapNode | ExileMaps.cs:604-664 | Copies the flags and addresses. Looks up the map type from the untrimmed area id. A visited node stops there. An unvisited node gets its content again under the element's content names. An unknown name gives `ContentTypeNotFound` for that name and leaves the effects and weight as they were. Otherwise the effects are rebuilt with repeats accumulating, and the weight is recomputed. |
| Atlas.RefreshHeader | ExileMaps.cs:606-614 | The flags and addresses come from the record, and the map type is the lookup of the short id, then of the untrimmed id. |
| Atlas.RefreshFlags | ExileMaps.cs:607-612 | IsUnlocked, IsVisible, IsVisited, IsActive, Address and ParentAddress come from the record. |
| Atlas.RefreshMapType | ExileMaps.cs:614 | The map type is the lookup result on the untrimmed area id, or a fresh default map. |
| Atlas.RefreshContents | ExileMaps.cs:619-662 | The content is rebuilt: refreshed content for an unvisited node. A missing content type faults and changes neither effects nor weight. Otherwise new effects follow the tower-effect rule, and the weight is recomputed. |
| Atlas.RefreshEffects | ExileMaps.cs:629-662 | The cleared and rebuilt effects equal the tower-effect rule with repeats accumulating. The weight is then recomputed. |
| Atlas.AtlasCache.CacheMapConnections | ExileMaps.cs:666-685 | A node with four linked neighbours is left unchanged. Otherwise it takes the four connections of its first point. In turn, it links the cached nodes it connects to and the cached nodes whose points connect to it, keeping the links it had. |
| Atlas.AtlasCache.LinkAll | ExileMaps.cs:675-677 | The outgoing loop is TryAdd for every cached coordinate in order. |
| Atlas.FirstConnection | ExileMaps.cs:671 | The first point whose source is the node, or the default point when there is none. |
| Atlas.Incoming | ExileMaps.cs:680 | Every result is the source of a point that connects to the node (IncomingIsFilter gives the exact sequence). |
| Atlas.IncomingIsFilter | ExileMaps.cs:680 | A single point contributes its source iff it connects to the node, and runs of points concatenate. So Incoming keeps every such source, and only those, in the order of the points. |
| Atlas.Outgoing | ExileMaps.cs:672-673 | The four target coordinates of a connection, in order. Its one use is CacheMapConnections, whose contract states the links it makes from them. |
| Atlas.TryAddAllIs | ExileMaps.cs:675-683 | Linking keeps every link the node had. It adds exactly the cached coordinates it tries that were not yet linked, each to the cached node. |
| Atlas.TryAddAll | ExileMaps.cs:675-683 | Neighbors.TryAdd for each listed key in turn when the key is cached. TryAddAllIs states what it does: old links are kept, and exactly the cached keys are added with their cached nodes. |
| Atlas.AtlasCache.Link | ExileMaps.cs:676-677 | One TryAdd: a cached coordinate that is not yet linked is linked to its cached node. TryAddAllStep shows it is one step of TryAddAll. |
| Atlas.LinkedCount | ExileMaps.cs:668 | The number of neighbours whose coordinates are not the default. CacheMapConnections leaves a node alone iff this is 4, as its contract states. |
| Atlas.AtlasCache.WaypointFor | ExileMaps.cs:1512-1515 | The waypoint is the node's ToWaypoint with the house icon. Its colour is interpolated between the bad and good colours by the weight's position between min and max weight. |
| Atlas.AtlasCache.AddWaypoint | ExileMaps.cs:1508-1518 | A node whose key is saved changes nothing. Otherwise its waypoint is added under its key, in the entry the dictionary's Add picks, with the Count and Add notifications. |
| Atlas.AtlasCache.RemoveWaypoint | ExileMaps.cs:1520-1525 | The node's key is gone afterwards. The log grows by Count and Remove only when the key was saved. |
| Atlas.AtlasCache.RemoveSavedWaypoint | ExileMaps.cs:1526-1528 | The waypoint's key is gone afterwards. When it was saved, its entry is freed and Count and Remove are raised; otherwise nothing else changes. |
| Records.Coordinates | ExileMaps.cs:478 | Exactly the coordinates of the records. |
| Records.MatchIndex | ExileMaps.cs:531 | A position in the enumeration order, at a key that is present. |
| Records.MatchIndexIs | ExileMaps.cs:531 | No map type before the position matches the id, and the one at it does. |
| Records.ResolveMapTypeIs | ExileMaps.cs:531 | The entry under the short id wins. Otherwise a found map type is one that matches the id. |
| Records.ResolveMapType | ExileMaps.cs:531 | The map type lookup. ResolveMapTypeIs, UnresolvedMatchesNothing, AnyMatchResolves and ResolvedIsFirstMatch state its outcome: the short id first, else the first listed map type whose MatchID accepts the id, else none. |
| Records.UnresolvedMatchesNothing | ExileMaps.cs:531 | When the enumeration order lists exactly the map types, no map type is found only when the short id is absent and no map type of the dictionary matches. |
| Records.AnyMatchResolves | ExileMaps.cs:531 | When the enumeration order lists exactly the map types, a map type that matches the id means the lookup finds one. |
| Records.ResolvedIsFirstMatch | ExileMaps.cs:531 | A map type found by matching is the first match in enumeration order. |
| Records.SourceContributionsAre | ExileMaps.cs:567-568 | A tower contributes exactly its effects whose modifier is defined and whose value is non-zero, under the printed mod id. |
| Records.ContributionsAre | ExileMaps.cs:566-568 | A node receives exactly the counting effects of the towers within distance 11. |
| Records.ContributionsSound | ExileMaps.cs:566-568 | Every contribution comes from a tower within radius 11. |
| Records.ContributionsComplete | ExileMaps.cs:566-568 | Every counting effect of a tower within radius 11 contributes. |
| Records.ContributionIsCounted | ExileMaps.cs:566-568 | Every contribution has a defined key equal to its mod id's text, a non-zero value, and a tower within radius. |
| Records.Infos | ExileMaps.cs:569-585 | The modifier facts are read per key of the modifier table. |
| Records.ApplyAppend | ExileMaps.cs:566-591 | Applying two lists of contributions is applying one after the other. |
| Records.TalliedKeys | ExileMaps.cs:571-589 | Starting from no effects, an effect exists exactly for each key some contribution has, and that key is a defined modifier. |
| Records.TalliesAre | ExileMaps.cs:571-589 | An effect holds the first contribution's name, description, id and enabled flag. Its value is the 32-bit wrapped sum of the contributions when repeats accumulate, else the first value. Its sources are every contributing tower, in order. |
| Records.ExpectedAppend | ExileMaps.cs:571-575 | A repeated contribution appends its tower and, when accumulating, adds its value with wrap-around. |
| Records.ExpectedSingle | ExileMaps.cs:577-589 | The first contribution creates the effect it adds up to. |
| Records.WrapInt32Add | ExileMaps.cs:573 | `Value1 += value` wraps like C# int addition, however many times it repeats. |
| Records.NewContentIsTypes | ExileMaps.cs:538-545 | A new node's content holds content types only, each under its own name, and includes every listed name that has a type. |
| Records.NewContent | ExileMaps.cs:538-545 | The content loop of a new node. NewContentIsTypes states that it holds content types only, each under its own name, and one for every non-empty name that has a type. |
| Records.CorruptionContentIsType | ExileMaps.cs:538-540 | The Corruption start is empty, or holds the Corruption type under its name. |
| Records.CorruptionContent | ExileMaps.cs:538-540 | The Corruption entry a new corrupted node starts from. CorruptionContentIsType states its shape and that it is present when the type is defined. |
| Records.RefreshedContentIs | ExileMaps.cs:619-627 | A refresh fails exactly on the first non-empty name without a content type. Without a fault, every non-empty name is a key holding its type. |
| Records.RefreshedContent | ExileMaps.cs:619-627 | The content loop of a refresh. RefreshedContentIs states when it stops, on which name, and what it holds otherwise. |
| Records.NonEmpty | ExileMaps.cs:553 | The biome names kept are non-empty (NonEmptyIsFilter gives the exact sequence). |
| Records.NonEmptyIsFilter | ExileMaps.cs:553 | A single name is kept iff it is non-empty, and runs of names concatenate. So NonEmpty keeps every non-empty name, and only those, in order. |
| Records.NewBiomesAreDefined | ExileMaps.cs:552-557 | A new node's biomes are definitions only, each under its own name, including every name that has a definition. |
| Building.CollectContent | ExileMaps.cs:538-545 | The content loop computes NewContent from the Corruption start. |
| Building.RefreshContent | ExileMaps.cs:619-627 | The refresh content loop computes RefreshedContent, stopping at the first unknown name. |
| Building.SkipRest | ExileMaps.cs:625-627 | Once a name is missing, later names change nothing. |
| Building.CollectBiomes | ExileMaps.cs:555-557 | The biome loop computes NewBiomes. |
| Building.BiomeNamesOf | ExileMaps.cs:553 | The non-empty biome names of the map type under the trimmed id, or none. |
| Building.AddToEffect | ExileMaps.cs:571-575 | A repeat adds the value with wrap-around when accumulating, and appends the tower. Nothing else of the effect changes. |
| Building.NewEffect | ExileMaps.cs:577-587 | A new effect has the modifier's name and description, the value, the id, and one source. It is Enabled iff the modifier is shown on maps and it is not the case that only applicable modifiers are drawn, its required content is non-empty, and no content of the node has a name containing it. |
| Building.AddContribution | ExileMaps.cs:571-589 | One contribution changes only the effect under its key, or adds one new effect. The effects stay distinct objects. |
| Building.AddEffect | ExileMaps.cs:567-589 | A tower effect is applied iff its modifier is defined and its value is non-zero. |
| Building.AddSourceEffects | ExileMaps.cs:567-591 | One tower's counting effects are applied in order. |
| Building.AddNearby | ExileMaps.cs:566 | A tower is applied iff it lies within radius 11. |
| Building.BuildEffects | ExileMaps.cs:564-596 | The whole effect loop yields new, distinct effects equal to the tower-effect rule. |
| Nodes.Node.constructor | ExileMaps.cs:519-532 | The object initialiser: record fields set, dictionaries empty, weight 0. |
| Nodes.Node.RecalculateWeight | Classes/Node.cs:73-93 | A visited node weighs 500. Otherwise it weighs its map type's weight plus its effects, content and biomes, every effect carries the weight it is due, and the effects' other properties are untouched. |
| Nodes.Node.StoreWeight | Classes/Node.cs:79 | Setting the weight changes nothing the computed weight depends on. |
| Nodes.Accumulate | Classes/Node.cs:79-91 | The three loops add the effects, content and biomes to the start weight, and recompute every effect. |
| Nodes.SumRest | Classes/Node.cs:86-91 | The content and biome loops add up their weights. |
| Nodes.RecalculateEffects | Classes/Node.cs:81-84 | Every effect is recalculated, the total is the sum of their new weights, and nothing else of them changes. |
| Nodes.RecalculateOne | Classes/Node.cs:82-83 | One effect gets its due weight, and the others keep theirs. |
| Nodes.RecalculatedWeights | Classes/Node.cs:81-84 | Once every effect is visited, the collected weights are the effects' weights and every effect is recomputed. |
| Nodes.SumContent | Classes/Node.cs:86-87 | The content loop sums the content weights. |
| Nodes.SumBiomes | Classes/Node.cs:90-91 | The biome loop sums the biome weights. |
| Nodes.RecomputedWeights | Classes/Node.cs:81-84 | Recomputed effects carry what Effect.RecalculateWeight assigns. |
| Nodes.RecalculatedNodeWeight | Classes/Node.cs:79-91 | After RecalculateWeight, an unvisited node weighs its map type plus the due effect weights, content and biomes. |
| Nodes.AttemptedIsFailed | Classes/Node.cs:28-30 | IsAttempted and IsFailed agree, and hold iff the node is visited and locked. |
| Nodes.Node.IsFailed | Classes/Node.cs:28 | Locked but visited; AttemptedIsFailed states it. |
| Nodes.Node.IsAttempted | Classes/Node.cs:30 | The same condition as IsFailed; AttemptedIsFailed states the two agree. |
| Nodes.Node.IsTower | Classes/Node.cs:32 | The node's map type is a tower map type; IsTowerTriesTowerIds states when that holds. |
| Nodes.BareNodeWeighsItsMapType | Classes/Node.cs:79 | A node with no effects, content or biomes weighs its map type. |
| Nodes.Node.ToWaypoint | Classes/Node.cs:63-71 | A shown waypoint with the node's name, id, address and coordinates, and defaults elsewhere. |
| Nodes.Node.GetNeighborCoordinates | Classes/Node.cs:142-144 | The four neighbour coordinates, in order. |
| Effects.Effect.constructor | Classes/Effect.cs:11-18 | A new effect has no sources, is disabled, and has zero values. |
| Effects.Effect.WeightFor | Classes/Effect.cs:34-36 | 0 when disabled or the modifier is undefined. Otherwise the modifier's weight times Value1. |
| Effects.Effect.RecalculateWeight | Classes/Effect.cs:34-36 | The weight becomes WeightFor, with a notification only when it changes. |
| Effects.DisabledEffectWeighsNothing | Classes/Effect.cs:35 | A disabled or undefined effect weighs 0. |
| Effects.Effect.GetSources | Classes/Effect.cs:32 | "" for no sources, and "(x, y)" for one. |
| Effects.SourceTexts | Classes/Effect.cs:32 | One "(x, y)" text per source, in list order. |
| Effects.SourcesTextAppend | Classes/Effect.cs:32 | One more source appends ", (x, y)" to the text. |
| Effects.EffectTextFillsValue | Classes/Effect.cs:27-30 | ToString replaces every "$" with the printed Value1, and no "$" survives. |
| Effects.Effect.ToString | Classes/Effect.cs:27-30 | The description with every "$" replaced by Value1; EffectTextFillsValue states it. |
| Effects.Effect.AddSource | ExileMaps.cs:575 | `Sources.Add` appends in place, with no notification. |
| Effects.Effect.SetName | Classes/Effect.cs:38-49 | Name is set, and "Name" is raised iff it changed. |
| Effects.Effect.SetDescription | Classes/Effect.cs:51-62 | Description is set, and "Description" is raised iff it changed. |
| Effects.Effect.SetEnabled | Classes/Effect.cs:64-75 | Enabled is set, and "enabled" is raised iff it changed. |
| Effects.Effect.SetValue1 | Classes/Effect.cs:77-88 | Value1 is set, and "Value1" is raised iff it changed. |
| Effects.Effect.SetValue2 | Classes/Effect.cs:90-101 | Value2 is set, and "Value2" is raised iff it changed. |
| Effects.Effect.SetId | Classes/Effect.cs:103-114 | ID is set, and "ID" is raised iff it changed. |
| Effects.Effect.SetWeight | Classes/Effect.cs:116-127 | Weight is set, and "Weight" is raised iff it changed. |
| Effects.Effect.SetSources | Classes/Effect.cs:129-140 | Sources is set, and "Sources" is raised. A new list is never the same reference. |
| Effects.EffectState | Classes/Effect.cs:11-18 | The properties of every effect, under the same keys. |
| Definitions.Notice | Classes/Map.cs:64-75 | A setter raises its property once iff the value differs. |
| Definitions.Map.constructor | Classes/Map.cs:11-25 | The field initialisers of a new map type. |
| Definitions.Map.MatchID | Classes/Map.cs:52-56 | A blank id matches nothing. Otherwise it matches iff some alias equals it, ignoring case. |
| Definitions.Map.MatchesAny | Classes/Map.cs:43-45 | Some candidate id is matched. |
| Definitions.IsTowerTriesTowerIds | Classes/Map.cs:43-45 | IsTower holds iff MatchID accepts one of the five tower ids. |
| Definitions.Map.IsTower | Classes/Map.cs:43-45 | Some id of the map type is a tower id; IsTowerTriesTowerIds shows this is MatchID accepting one of the five tower ids. |
| Definitions.HasTowerAliasIs | Classes/Map.cs:43-45 | Some alias is a tower id, ignoring case. |
| Definitions.AnyEqualsIgnoreCase | Classes/Map.cs:55 | Some id equals the given one, ignoring case. |
| Definitions.TowerIdsHaveText | Classes/Map.cs:43-45 | No tower id is blank. |
| Definitions.DefaultMapMatchesNothing | Classes/Map.cs:52-56 | A map with no aliases matches no id and is not a tower. |
| Definitions.MatchIgnoresCase | Classes/Map.cs:52-56 | Ids differing only in ASCII letter case match alike. |
| Definitions.Map.ToString | Classes/Map.cs:47-50 | The name. |
| Definitions.Map.BiomesToString | Classes/Map.cs:58-61 | "None" for no biomes, otherwise the non-blank ones joined by ", ". |
| Definitions.NonBlank | Classes/Map.cs:60 | No longer than the input. Every entry kept is a non-blank entry of the input, and every non-blank entry is kept. |
| Definitions.NonBlankIsFilter | Classes/Map.cs:60 | A single entry is kept iff it is not blank, and runs of entries concatenate. So NonBlank keeps exactly the non-blank entries, in order. |
| Definitions.AllBlankBiomes | Classes/Map.cs:58-61 | Only blank biomes leave nothing to join. |
| Definitions.Map.SetNameColor | Classes/Map.cs:64-75 | NameColor is set, with a notification iff it changed. |
| Definitions.Map.SetBackgroundColor | Classes/Map.cs:78-89 | BackgroundColor is set, with a notification iff it changed. |
| Definitions.Map.SetNodeColor | Classes/Map.cs:92-103 | NodeColor is set, with a notification iff it changed. |
| Definitions.Map.SetDrawLine | Classes/Map.cs:105-116 | DrawLine is set, with a notification iff it changed. |
| Definitions.Map.SetHighlight | Classes/Map.cs:118-129 | Highlight is set, with a notification iff it changed. |
| Definitions.Map.SetCount | Classes/Map.cs:131-142 | Count is set, with a notification iff it changed. |
| Definitions.Map.SetLockedCount | Classes/Map.cs:144-155 | LockedCount is set, with a notification iff it changed. |
| Definitions.Map.SetFogCount | Classes/Map.cs:157-168 | FogCount is set, with a notification iff it changed. |
| Definitions.Map.SetWeight | Classes/Map.cs:170-181 | Weight is set, with a notification iff it changed. |
| Definitions.Mod.constructor | Classes/Mod.cs:16-30 | The field initialisers of a new modifier. |
| Definitions.ModTextSingle | Classes/Mod.cs:39-42 | With no range, each "$" becomes the formatted MinValue1. |
| Definitions.ModTextRange | Classes/Mod.cs:39-42 | With a range, each "$" becomes "min-max". |
| Definitions.ModTextNoPlaceholder | Classes/Mod.cs:39-42 | A description without "$" is shown as it is. |
| Definitions.ModTextFillsAll | Classes/Mod.cs:39-42 | No "$" survives when the formatted numbers hold none. |
| Definitions.Mod.ToString | Classes/Mod.cs:39-42 | The description with every "$" replaced by the value range, or by the single value; ModTextSingle, ModTextRange, ModTextNoPlaceholder and ModTextFillsAll state it. |
| Definitions.Mod.SetModId | Classes/Mod.cs:44-55 | ModID is set, with a notification iff it changed. |
| Definitions.Mod.SetDescription | Classes/Mod.cs:57-68 | Description is set, with a notification iff it changed. |
| Definitions.Mod.SetRequiredContent | Classes/Mod.cs:69-80 | RequiredContent is set, with a notification iff it changed. |
| Definitions.Mod.SetWeight | Classes/Mod.cs:82-93 | Weight is set, with a notification iff it changed. |
| Definitions.Mod.SetMinValueToShow | Classes/Mod.cs:95-106 | MinValueToShow is set, with a notification iff it changed. |
| Definitions.Mod.SetColor | Classes/Mod.cs:109-120 | Color is set, with a notification iff it changed. |
| Definitions.Mod.SetMinValue1 | Classes/Mod.cs:122-133 | MinValue1 is set, with a notification iff it changed. |
| Definitions.Mod.SetMaxValue1 | Classes/Mod.cs:135-146 | MaxValue1 is set, with a notification iff it changed. |
| Definitions.Mod.SetName | Classes/Mod.cs:148-159 | Name is set, with a notification iff it changed. |
| Definitions.Mod.SetMinValue2 | Classes/Mod.cs:161-172 | MinValue2 is set, with a notification iff it changed. |
| Definitions.Mod.SetMaxValue2 | Classes/Mod.cs:174-185 | MaxValue2 is set, with a notification iff it changed. |
| Definitions.Mod.SetStat2 | Classes/Mod.cs:187-198 | Stat2 is set, with a notification iff it changed. |
| Definitions.Mod.SetShowOnMap | Classes/Mod.cs:199-210 | ShowOnMap is set, with a notification iff it changed. |
| Definitions.Content.constructor | Classes/Content.cs:16-19 | A new content type has weight 1, is white and highlighted, and has an empty name. |
| Definitions.Content.ToString | Classes/Content.cs:28-31 | The name. |
| Definitions.Content.SetName | Classes/Content.cs:33-44 | Name is set, with a notification iff it changed. |
| Definitions.Content.SetWeight | Classes/Content.cs:46-57 | Weight is set, with a notification iff it changed. |
| Definitions.Content.SetColor | Classes/Content.cs:60-71 | Color is set, with a notification iff it changed. |
| Definitions.Content.SetHighlight | Classes/Content.cs:73-84 | Highlight is set, with a notification iff it changed. |
| Observable.ObservableDictionary.constructor | Classes/ObservableDictionary.cs:11 | A new dictionary is empty, with no events. |
| Observable.ObservableDictionary.Set | Classes/ObservableDictionary.cs:19-49 | Replaces or adds the entry. A present key keeps its entry. A new key goes where the wrapped Dictionary puts it: the most recently freed entry, else a new one at the end. The subscription moves to the new value. Count, then Replace or Add, is raised. |
| Observable.ObservableDictionary.Add | Classes/ObservableDictionary.cs:57-70 | A present key changes nothing. Otherwise the entry is added where the wrapped Dictionary puts it and subscribed, with Count and Add raised. |
| Observable.ObservableDictionary.Remove | Classes/ObservableDictionary.cs:72-86 | Returns true iff the key was present. The entry is gone from the map, its entry is freed and heads the free list, and Count and Remove are raised, only then. |
| Observable.ObservableDictionary.Clear | Classes/ObservableDictionary.cs:89-102 | Unsubscribes from every value and empties the dictionary, its entries and its free list, raising Count and Reset. |
| Observable.ObservableDictionary.ContainsKey | Classes/ObservableDictionary.cs:104 | The key is present. |
| Observable.ObservableDictionary.TryGetValue | Classes/ObservableDictionary.cs:88 | The value iff the key is present. |
| Observable.ObservableDictionary.Contains | Classes/ObservableDictionary.cs:111 | The key is present and holds that value. |
| Observable.ObservableDictionary.ValueChanged | Classes/ObservableDictionary.cs:116-125 | Raises Replace for the first enumerated key holding the sender, or for the default key when none holds it. Nothing else changes. |
| Observable.FirstIndexOf | Classes/ObservableDictionary.cs:120 | The first position holding the value, or the end. |
| Observable.FirstIndexIsFirst | Classes/ObservableDictionary.cs:120 | A position before which no key holds the value, and at which one does, is FirstIndexOf. |
| Observable.SubscribedSenderIsFound | Classes/ObservableDictionary.cs:116-121 | A subscribed sender is always found under some key. |
| Observable.Without | Classes/ObservableDictionary.cs:72-86 | The order without the removed key and with every other key. |
| Observable.Insert | Classes/ObservableDictionary.cs:40 | A new key takes the most recently freed entry, or else one more entry is added. |
| Observable.Free | Classes/ObservableDictionary.cs:74 | Removing a key frees its entry and adds one to the free list. |
| Observable.InsertKeepsOthers | Classes/ObservableDictionary.cs:40 | After an insert the new key is enumerated, and taking it out gives the old order back. |
| Observable.FreeDropsKey | Classes/ObservableDictionary.cs:74 | After a remove the order is the old order without the key. |
| Observable.AppendWhenNoneFree | Classes/ObservableDictionary.cs:62 | With no freed entry, a new key is enumerated last. |
| Observable.FreedEntryIsReused | Classes/ObservableDictionary.cs:57-86 | Add a, Add b, Remove a, Add c enumerates c, b: the freed entry is reused. |
| Observable.OrderListsKeys | Classes/ObservableDictionary.cs:116-121 | A valid dictionary enumerates each of its keys exactly once, and nothing else. |
| Observable.ToObservableDictionary | Classes/ObservableDictionaryExtensions.cs:9-18 | The pairs are added in turn. The first pair of each key wins, keys are in first-seen order, and one Count and Add per distinct key is raised. |
| Observable.ToObservableDictionaryBy | Classes/ObservableDictionaryExtensions.cs:20-29 | The same, for the pairs (keySelector(v), v). |
| Observable.Keyed | Classes/ObservableDictionaryExtensions.cs:26 | One pair (keySelector(v), v) per value, in order. |
| Observable.FirstWinsKeys | Classes/ObservableDictionaryExtensions.cs:13-16 | The keys are exactly the keys of the pairs. |
| Observable.FirstWinsFirst | Classes/ObservableDictionaryExtensions.cs:13-16 | Each key holds the value of its first pair. |
| Observable.FirstWinsFromSource | Classes/ObservableDictionaryExtensions.cs:13-16 | Every entry is one of the pairs. |
| Observable.KeyedUnderOwnKey | Classes/ObservableDictionaryExtensions.cs:24-27 | Every value sits under its own selected key. |
| Observable.DistinctKeysAreKeys | Classes/ObservableDictionaryExtensions.cs:13-16 | The order lists each key of the result exactly once. |
| Codecs.FromArgb | Classes/JsonColorConverter.cs:34 | A colour iff every component is in 0..255. |
| Codecs.ParseColor | Classes/JsonColorConverter.cs:23-45 | A failure always carries "Error parsing color: " plus the input. A success means four parts, each trimming and parsing to a channel. |
| Codecs.ColorRoundTrip | Classes/JsonColorConverter.cs:17-45 | Reading back the written "A, R, G, B" gives the same colour. |
| Codecs.WriteColor | Classes/JsonColorConverter.cs:17-21 | "A, R, G, B"; SplitFormatArgb and ColorRoundTrip state that it splits into the four channels and reads back as the colour. |
| Codecs.ParseFormatArgb | Classes/JsonColorConverter.cs:27-34 | Parsing the text of four 32-bit integers gives FromArgb of them. |
| Codecs.ColorErrorNamesInput | Classes/JsonColorConverter.cs:43 | Every failure message contains the input. |
| Codecs.ColorNeedsFourParts | Classes/JsonColorConverter.cs:28-38 | Anything but four comma-separated parts is an invalid format. |
| Codecs.SplitFormatArgb | Classes/JsonColorConverter.cs:19-27 | The written text splits into the four component texts. |
| Codecs.ReadVector | Classes/Vector2iConverter.cs:17-21 | A coordinate only from a text whose first two comma-separated parts parse as integers. |
| Codecs.VectorRoundTrip | Classes/Vector2iConverter.cs:12-21 | Reading back the written "X,Y" gives the coordinate. |
| Codecs.WriteVector | Classes/Vector2iConverter.cs:12-15 | "X,Y"; VectorRoundTrip states that it reads back as the coordinate. |
| Codecs.VectorNeedsComma | Classes/Vector2iConverter.cs:19-20 | A text without a comma never reads as a coordinate: either part 0 does not parse or `value[1]` is out of range. |
| Codecs.VectorIgnoresExtraParts | Classes/Vector2iConverter.cs:19-20 | Text after a second comma is ignored. |
| ColorUtils.Truncate | Classes/ColorUtils.cs:17-20 | The `(int)` cast truncates toward zero. |
| ColorUtils.ClampChannel | Classes/ColorUtils.cs:17-20 | `Math.Max(Math.Min(n, 255), 0)`: values in range unchanged, others clamped to the bound. |
| ColorUtils.InterpolateAtZero | Classes/ColorUtils.cs:9-23 | Fraction 0 gives the first colour. |
| ColorUtils.InterpolateAtOne | Classes/ColorUtils.cs:9-23 | Fraction 1 gives the second colour. |
| ColorUtils.InterpolateBetween | Classes/ColorUtils.cs:9-23 | For fractions in [0, 1], every channel lies between the two colours' channels. |
| ColorUtils.InterpolateChannelBetween | Classes/ColorUtils.cs:11-20 | One channel lies between its endpoints for fractions in [0, 1]. |
| ColorUtils.InterpolateSame | Classes/ColorUtils.cs:9-23 | Interpolating a colour with itself gives it back, whatever the fraction. |
| ColorUtils.InterpolateColor | Classes/ColorUtils.cs:9-23 | Each channel interpolated, truncated and clamped. InterpolateAtZero, InterpolateAtOne, InterpolateBetween and InterpolateSame state its ends, its bounds and its fixed point. |
| ColorUtils.TruncateInt | Classes/ColorUtils.cs:17-20 | An integral value truncates to itself. |
| Text.Trim | Classes/JsonColorConverter.cs:30-33 | The result has no white space at either end and is no longer than the input. |
| Text.TrimPadded | Classes/JsonColorConverter.cs:30-33 | Any run of white space, then a text whose ends are not white (or nothing), then any run of white space, trims to exactly that text. Every string splits so. |
| Text.TrimNoOp | Classes/JsonColorConverter.cs:30-33 | A text with no white space at its ends trims to itself. |
| Text.Split | Classes/JsonColorConverter.cs:27 | At least one piece. |
| Text.JoinSplit | Classes/JsonColorConverter.cs:27 | The pieces hold no separator, and joining them gives the text back. |
| Text.SplitJoin | Classes/Vector2iConverter.cs:19 | Splitting a join of separator-free pieces gives the pieces back. |
| Text.Join | Classes/Map.cs:60 | string.Join; JoinSplit and SplitJoin state that Split undoes it and it undoes Split. |
| Text.ParseInt | Classes/JsonColorConverter.cs:30-33 | A success is a 32-bit integer. |
| Text.IntToString | Classes/JsonColorConverter.cs:19 | An optional minus sign followed by digits. |
| Text.IntRoundTrip | Classes/Vector2iConverter.cs:14-20 | Parsing a printed 32-bit integer gives it back. |
| Text.ParseIntNeedsDigit | Classes/Vector2iConverter.cs:20 | A text with no digit never parses. |
| Text.WrapInt32 | ExileMaps.cs:573 | The 32-bit value congruent to the input modulo 2^32, the input itself when in range. |
| Text.IsNullOrWhiteSpace | Classes/Map.cs:54 | Every character is white space. |
| Text.Contains | ExileMaps.cs:585 | Some position starts with the substring. |
| Text.ReplaceCharIsSpec | Classes/Effect.cs:29 | Replace of a single character substitutes each occurrence of it. |
| Text.ReplaceCharRemovesAll | Classes/Effect.cs:29 | No occurrence survives when the replacement lacks it. |
| Text.ReplaceCharAbsent | Classes/Mod.cs:41 | With no occurrence, Replace changes nothing. |
| Text.Replace | Classes/Effect.cs:29 | string.Replace. ReplaceCharIsSpec, ReplaceCharRemovesAll and ReplaceCharAbsent state it for a one-character pattern, the only kind the code uses. |
| Weights.SumOf | ExileMaps.cs:508 | The sum of the distinct weights. |
| Weights.MaxOf | ExileMaps.cs:511 | The largest weight. |
| Weights.MinOf | ExileMaps.cs:512 | The smallest weight. |
| Weights.SkipLargest | ExileMaps.cs:511 | OrderByDescending.Skip(n): all but the n largest, or none when there are at most n. |
| Weights.SkipSmallest | ExileMaps.cs:512 | OrderBy.Skip(n): all but the n smallest, or none when there are at most n. |
| Weights.TopAfterSkip | ExileMaps.cs:511 | The maximum after skipping has exactly n weights above it. |
| Weights.BottomAfterSkip | ExileMaps.cs:512 | The minimum after skipping has exactly n weights below it. |
| Weights.RankIsUnique | ExileMaps.cs:511 | At most one weight has exactly n weights above it, so the stored maximum is determined. |

## Left out

- Floating point: `float` is modelled as `real`. Rounding, NaN and infinity, and the order of float summation (dictionary enumeration order) are not modelled. Node and effect weights are exact sums.
- Nodes.Node.RecalculateWeight: the weight is the exact sum of the parts, independent of the order the dictionaries enumerate in.
- Atlas.AtlasCache.WaypointFor: when max and min weight are equal, C# divides by zero and gets NaN or infinity, and the colour then depends on float casts. The model takes that colour as a parameter.
- `AsParallel()` in CacheNewMapNode's loops is taken as sequential, in list order. That order decides which contribution creates an effect, the order of an effect's sources, and which content of the same name `TryAdd` keeps. The model fixes it.
- Case-insensitive comparison (`OrdinalIgnoreCase`) folds ASCII letters only. Full Unicode case folding is not modelled.
- Strings are never null. A null `RequiredContent` or name is modelled as "".
- `Vector2i.ToString()`, the waypoint key, is not part of this model. AddWaypoint and the two RemoveWaypoint overloads take it as the parameter `keyOf`.
- The game memory behind `AtlasNodeDescription` (`Element`, `GetChildAtIndex(0).Children`, textures) is read into a `NodeRecord` value. The `"Corrupt"` texture test becomes the record's `corrupted` flag. The `MapNode` reference a node keeps is left out.
- The `try`/`catch` blocks around the content, biome and effect lookups of CacheNewMapNode and RefreshCachedMapNode only catch game-memory exceptions. With the memory read into values those cannot arise, so the catch paths are not modelled.
- The settings tables are read as they are on entry to each operation (a `Tables` value of references, and a `ModInfo` snapshot of each modifier). Another thread changing them during a refresh is not modelled.
- Threading: `mapCacheLock`, the refresh `Job`, `Tick`, the timer, the processed count and `lastRefresh` are left out. So are the `refreshingCache` checks elsewhere in the plugin.
- The on-screen filter of Render (ExileMaps.cs:154) needs the client rectangle of the game element and is left out. So is everything Render draws.
- `Biome.cs` is not part of this model. A biome is modelled as its name and weight, the two properties the cache reads.
- Node.MatchID, Node.ToString, Node.DebugText, Node.EffectText and Node.MatchEffect are display and search helpers outside the cache logic, and are left out. MatchEffect uses regular expressions.
- Definitions.Mod.ToString (Classes/Mod.cs:39-42) is modelled with float formatting as the parameter `format`, because the text of a C# float is not modelled.
- CacheNewMapNode's map type lookup uses `FirstOrDefault() ?? new Map()`. The fresh default map is modelled as a new `Map` object.
- Map.IsTower calls MatchID on the five tower ids in turn (Classes/Map.cs:43-45). The model computes it from the aliases instead and proves the two equal (`Definitions.IsTowerTriesTowerIds`).
- The change log of an effect records notification names only. Subscribers to them are not modelled.
- `ObservableDictionary`: the getter of the indexer (which throws on a missing key, like TryGetValue's `None`), `Keys`, `Values`, `Count`, `CopyTo` and enumeration are plain reads and are not modelled separately. `Add(KeyValuePair)` and `Remove(KeyValuePair)` only call `Add` and `Remove`. The `try`/`catch` in Value_PropertyChanged is only for the cast, which the types make safe.
- JsonColorConverter.Read and Vector2iConverter reading through a `JsonReader` are modelled on the string they read.
- Codecs.ParseColor: the exception it wraps is recorded as a cause (an invalid format, a bad part or an out-of-range channel), not as a .NET exception object.
- CacheRecords: the contract keeps the keys, the node object under each old key and the freshness of new nodes. It does not carry, for each coordinate, the state the last record for it left the node in, and it does not say that a node no record names is left unchanged. CacheRecord states both facts for a single record: the node it places, and a frame of that one node.
- Rebuild: it states only the clear, the keys, the old node objects and the freshness of new nodes, not the contents of the rebuilt nodes.
- RefreshMapCache: it states the keys, the old node objects, the statistics and the flags, not each node's contents, effects, weight or links.
- CacheRecord: it states that an unvisited node's effects carry their due weights only through PlaceRecord, before the node is linked, and not after the link step.
- The order in which `ObservableDictionary` enumerates its keys follows the layout of the wrapped .NET `Dictionary`: its entries array and its free list, with the most recently freed entry reused first. The .NET documentation leaves that order unspecified. The model keeps the layout and leaves out resizing and bucket chains, which do not change the order.
