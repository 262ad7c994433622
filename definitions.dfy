/**
 * The user-editable definitions the atlas scoring reads: map types (Map),
 * map modifiers (Mod), content types (Content) and biomes (Biome).  Every
 * property setter stores the new value and raises PropertyChanged with the
 * property's name, but only when the value differs from the stored one; the
 * names raised are recorded in `changes`.
 */
module Definitions {
  import opened Wrappers
  import opened Text
  import opened Codecs

  /** The PropertyChanged raised by a setter: one notification when the
      value differs, none otherwise. */
  function Notice(differs: bool, property: string): (r: seq<string>)
    ensures |r| == (if differs then 1 else 0)
    ensures differs ==> r == [property]
  {
    if differs then [property] else []
  }

  const White: Color := Color(255, 255, 255, 255)

  // ---------------------------------------------------------------------
  // Map
  // ---------------------------------------------------------------------

  /** The ids of the map types whose nodes are towers. */
  const TowerIds: seq<string> :=
    ["MapSwampTower", "MapLostTowers", "MapMesa", "MapBluff", "MapAlpineRidge"]

  /** Array.Exists(ids, x => x.Equals(id, OrdinalIgnoreCase)). */
  function AnyEqualsIgnoreCase(ids: seq<string>, id: string): (r: bool)
    ensures r <==> exists i :: 0 <= i < |ids| && EqualsIgnoreCase(ids[i], id)
  {
    if |ids| == 0 then false
    else if EqualsIgnoreCase(ids[0], id) then true
    else
      var r := AnyEqualsIgnoreCase(ids[1..], id);
      assert forall i :: 1 <= i < |ids| ==> ids[i] == ids[1..][i - 1];
      r
  }

  /** The alias is one of the tower ids, ignoring case. */
  predicate IsTowerId(alias: string) {
    exists j | 0 <= j < |TowerIds| :: EqualsIgnoreCase(alias, TowerIds[j])
  }

  /** Some alias of the list is a tower id. */
  predicate HasTowerAlias(ids: seq<string>) {
    if |ids| == 0 then false else IsTowerId(ids[0]) || HasTowerAlias(ids[1..])
  }

  lemma {:induction false} HasTowerAliasIs(ids: seq<string>)
    ensures HasTowerAlias(ids) <==> exists k :: 0 <= k < |ids| && IsTowerId(ids[k])
  {
    if |ids| > 0 {
      HasTowerAliasIs(ids[1..]);
      assert forall k :: 1 <= k < |ids| ==> ids[k] == ids[1..][k - 1];
    }
  }

  /** Every tower id has text, so MatchID does not reject it as blank. */
  lemma TowerIdsHaveText()
    ensures forall j :: 0 <= j < |TowerIds| ==> !IsNullOrWhiteSpace(TowerIds[j])
  {
    forall j | 0 <= j < |TowerIds|
      ensures !IsNullOrWhiteSpace(TowerIds[j])
    {
      assert TowerIds[j][0] == 'M';
    }
  }

  /** The entries that are not null, empty or white space, in order. */
  function NonBlank(parts: seq<string>): (r: seq<string>)
    ensures |r| <= |parts|
    ensures forall i :: 0 <= i < |r| ==> !IsNullOrWhiteSpace(r[i]) && r[i] in parts
    ensures forall i :: 0 <= i < |parts| && !IsNullOrWhiteSpace(parts[i]) ==> parts[i] in r
  {
    if |parts| == 0 then []
    else
      var rest := NonBlank(parts[1..]);
      assert forall i :: 1 <= i < |parts| ==> parts[i] == parts[1..][i - 1];
      if IsNullOrWhiteSpace(parts[0]) then rest else [parts[0]] + rest
  }

  /** NonBlank is the filter: it keeps a single entry exactly when the entry
      is not blank, and distributes over concatenation, so it keeps every
      non-blank entry, and only those, in their order. */
  lemma NonBlankIsFilter(a: seq<string>, b: seq<string>)
    ensures NonBlank(a + b) == NonBlank(a) + NonBlank(b)
    ensures |a| == 1 ==> NonBlank(a) == if IsNullOrWhiteSpace(a[0]) then [] else [a[0]]
  {
    NonBlankAppend(a, b);
    if |a| == 1 {
      assert NonBlank(a[1..]) == [];
    }
  }

  /** NonBlank distributes over concatenation. */
  lemma {:induction false} NonBlankAppend(a: seq<string>, b: seq<string>)
    ensures NonBlank(a + b) == NonBlank(a) + NonBlank(b)
    decreases |a|
  {
    if |a| == 0 {
      assert a + b == b;
    } else {
      var ab := a + b;
      assert ab[0] == a[0] && ab[1..] == a[1..] + b;
      NonBlankAppend(a[1..], b);
    }
  }

  class Map {
    var name: string
    /** The deprecated single id, kept for old settings files. */
    var id: string
    var ids: seq<string>
    var shortestId: Option<string>
    var biomes: seq<string>
    var nameColor: Color
    var backgroundColor: Color
    var nodeColor: Color
    var drawLine: bool
    var highlight: bool
    var count: int
    var lockedCount: int
    var fogCount: int
    var weight: real
    /** The property names raised through PropertyChanged so far. */
    var changes: seq<string>

    /** new Map(): the field initialisers. */
    constructor()
      ensures name == "" && id == "" && ids == [] && shortestId == None && biomes == []
      ensures nameColor == White && backgroundColor == Color(220, 0, 0, 0)
      ensures nodeColor == Color(200, 155, 155, 155)
      ensures !drawLine && highlight
      ensures count == 0 && lockedCount == 0 && fogCount == 0
      ensures weight == 1.0
      ensures changes == []
    {
      name := "";
      id := "";
      ids := [];
      shortestId := None;
      biomes := [];
      nameColor := White;
      backgroundColor := Color(220, 0, 0, 0);
      nodeColor := Color(200, 155, 155, 155);
      drawLine := false;
      highlight := true;
      count := 0;
      lockedCount := 0;
      fogCount := 0;
      weight := 1.0;
      changes := [];
    }

    /** MatchID: a blank id matches nothing; otherwise some alias equals it
        ignoring case. */
    function MatchID(id: string): (r: bool)
      reads this`ids
      ensures IsNullOrWhiteSpace(id) ==> !r
      ensures r <==> !IsNullOrWhiteSpace(id) && exists i :: 0 <= i < |ids| && EqualsIgnoreCase(ids[i], id)
    {
      if IsNullOrWhiteSpace(id) then false else AnyEqualsIgnoreCase(ids, id)
    }

    /** Some id of the list is matched, trying them in order. */
    function MatchesAny(candidates: seq<string>): (r: bool)
      reads this`ids
      ensures r <==> exists i :: 0 <= i < |candidates| && MatchID(candidates[i])
    {
      if |candidates| == 0 then false
      else if MatchID(candidates[0]) then true
      else
        var r := MatchesAny(candidates[1..]);
        assert forall i :: 1 <= i < |candidates| ==> candidates[i] == candidates[1..][i - 1];
        r
    }

    /** IsTower: MatchID of MapSwampTower, MapLostTowers, MapMesa, MapBluff
        and MapAlpineRidge in turn, computed as some alias being one of
        them; lemma IsTowerTriesTowerIds shows the two agree. */
    predicate IsTower()
      reads this`ids
    {
      HasTowerAlias(ids)
    }

    /** The display text of a map type is its name. */
    function ToString(): (r: string)
      reads this
      ensures r == name
    {
      name
    }

    /** BiomesToString: "None" for no biomes, otherwise the non-blank ones
        separated by ", ". */
    function BiomesToString(): (r: string)
      reads this
      ensures |biomes| == 0 ==> r == "None"
      ensures |biomes| > 0 ==> r == Join(NonBlank(biomes), ", ")
    {
      if |biomes| == 0 then "None" else Join(NonBlank(biomes), ", ")
    }

    method SetNameColor(value: Color)
      modifies this`nameColor, this`changes
      ensures nameColor == value
      ensures changes == old(changes) + Notice(old(nameColor) != value, "NameColor")
    {
      if nameColor != value {
        nameColor := value;
        changes := changes + ["NameColor"];
      }
    }

    method SetBackgroundColor(value: Color)
      modifies this`backgroundColor, this`changes
      ensures backgroundColor == value
      ensures changes == old(changes) + Notice(old(backgroundColor) != value, "BackgroundColor")
    {
      if backgroundColor != value {
        backgroundColor := value;
        changes := changes + ["BackgroundColor"];
      }
    }

    method SetNodeColor(value: Color)
      modifies this`nodeColor, this`changes
      ensures nodeColor == value
      ensures changes == old(changes) + Notice(old(nodeColor) != value, "NodeColor")
    {
      if nodeColor != value {
        nodeColor := value;
        changes := changes + ["NodeColor"];
      }
    }

    method SetDrawLine(value: bool)
      modifies this`drawLine, this`changes
      ensures drawLine == value
      ensures changes == old(changes) + Notice(old(drawLine) != value, "DrawLine")
    {
      if drawLine != value {
        drawLine := value;
        changes := changes + ["DrawLine"];
      }
    }

    method SetHighlight(value: bool)
      modifies this`highlight, this`changes
      ensures highlight == value
      ensures changes == old(changes) + Notice(old(highlight) != value, "Highlight")
    {
      if highlight != value {
        highlight := value;
        changes := changes + ["Highlight"];
      }
    }

    method SetCount(value: int)
      modifies this`count, this`changes
      ensures count == value
      ensures changes == old(changes) + Notice(old(count) != value, "Count")
    {
      if count != value {
        count := value;
        changes := changes + ["Count"];
      }
    }

    method SetLockedCount(value: int)
      modifies this`lockedCount, this`changes
      ensures lockedCount == value
      ensures changes == old(changes) + Notice(old(lockedCount) != value, "LockedCount")
    {
      if lockedCount != value {
        lockedCount := value;
        changes := changes + ["LockedCount"];
      }
    }

    method SetFogCount(value: int)
      modifies this`fogCount, this`changes
      ensures fogCount == value
      ensures changes == old(changes) + Notice(old(fogCount) != value, "FogCount")
    {
      if fogCount != value {
        fogCount := value;
        changes := changes + ["FogCount"];
      }
    }

    method SetWeight(value: real)
      modifies this`weight, this`changes
      ensures weight == value
      ensures changes == old(changes) + Notice(old(weight) != value, "Weight")
    {
      if weight != value {
        weight := value;
        changes := changes + ["Weight"];
      }
    }
  }

  /** IsTower holds exactly when MatchID accepts one of the five tower ids,
      tried in order. */
  lemma IsTowerTriesTowerIds(m: Map)
    ensures m.IsTower() == m.MatchesAny(TowerIds)
    ensures m.IsTower() <==> exists j :: 0 <= j < |TowerIds| && m.MatchID(TowerIds[j])
  {
    HasTowerAliasIs(m.ids);
    TowerIdsHaveText();
    if m.IsTower() {
      var k :| 0 <= k < |m.ids| && IsTowerId(m.ids[k]);
      var j :| 0 <= j < |TowerIds| && EqualsIgnoreCase(m.ids[k], TowerIds[j]);
      assert m.MatchID(TowerIds[j]);
    }
    if exists j :: 0 <= j < |TowerIds| && m.MatchID(TowerIds[j]) {
      var j :| 0 <= j < |TowerIds| && m.MatchID(TowerIds[j]);
      var k :| 0 <= k < |m.ids| && EqualsIgnoreCase(m.ids[k], TowerIds[j]);
      assert IsTowerId(m.ids[k]);
    }
  }

  /** A map with no aliases matches no id, so it is never a tower. */
  lemma DefaultMapMatchesNothing(m: Map, id: string)
    requires m.ids == []
    ensures !m.MatchID(id) && !m.IsTower()
  {
  }

  /** Matching ignores the case of ASCII letters in the id. */
  lemma MatchIgnoresCase(m: Map, id: string, other: string)
    requires EqualsIgnoreCase(id, other)
    ensures m.MatchID(id) == m.MatchID(other)
  {
    if m.MatchID(id) {
      var i :| 0 <= i < |m.ids| && EqualsIgnoreCase(m.ids[i], id);
      assert EqualsIgnoreCase(m.ids[i], other);
      assert !IsNullOrWhiteSpace(other) by {
        var j :| 0 <= j < |id| && !IsWhiteSpace(id[j]);
        assert ToUpperAscii(id[j]) == ToUpperAscii(other[j]);
        WhiteSpaceCaseless(id[j], other[j]);
      }
    }
    if m.MatchID(other) {
      var i :| 0 <= i < |m.ids| && EqualsIgnoreCase(m.ids[i], other);
      assert EqualsIgnoreCase(m.ids[i], id);
      assert !IsNullOrWhiteSpace(id) by {
        var j :| 0 <= j < |other| && !IsWhiteSpace(other[j]);
        assert ToUpperAscii(id[j]) == ToUpperAscii(other[j]);
        WhiteSpaceCaseless(other[j], id[j]);
      }
    }
  }

  /** Two characters with the same upper case are both white space or both
      not. */
  lemma WhiteSpaceCaseless(c: char, d: char)
    requires ToUpperAscii(c) == ToUpperAscii(d)
    ensures IsWhiteSpace(c) == IsWhiteSpace(d)
  {
  }

  /** Biomes that are all blank print as the empty text, not "None". */
  lemma {:induction false} AllBlankBiomes(parts: seq<string>)
    requires forall i :: 0 <= i < |parts| ==> IsNullOrWhiteSpace(parts[i])
    ensures NonBlank(parts) == []
  {
    if |parts| > 0 {
      assert forall i :: 0 <= i < |parts[1..]| ==> parts[1..][i] == parts[i + 1];
      AllBlankBiomes(parts[1..]);
    }
  }

  // ---------------------------------------------------------------------
  // Mod
  // ---------------------------------------------------------------------

  class Mod {
    var modId: string
    var description: string
    var weight: real
    var color: Color
    var minValue1: real
    var maxValue1: real
    var name: string
    var minValue2: real
    var maxValue2: real
    var stat2: string
    var showOnMap: bool
    var minValueToShow: real
    var requiredContent: string
    var changes: seq<string>

    /** new Mod(): the field initialisers; unset strings start as "". */
    constructor()
      ensures modId == "" && description == "" && name == "" && stat2 == ""
      ensures weight == 0.0 && color == White
      ensures minValue1 == 0.0 && maxValue1 == 0.0 && minValue2 == 0.0 && maxValue2 == 0.0
      ensures showOnMap && minValueToShow == 0.0 && requiredContent == ""
      ensures changes == []
    {
      modId := "";
      description := "";
      weight := 0.0;
      color := White;
      minValue1 := 0.0;
      maxValue1 := 0.0;
      name := "";
      minValue2 := 0.0;
      maxValue2 := 0.0;
      stat2 := "";
      showOnMap := true;
      minValueToShow := 0.0;
      requiredContent := "";
      changes := [];
    }

    /** ToString: every "$" of the description becomes the value range
        "min-max", or the single value when the range is one value.  Float
        formatting is the parameter. */
    function ToString(format: real -> string): string
      reads this
    {
      if minValue1 != maxValue1
      then Replace(description, "$", format(minValue1) + "-" + format(maxValue1))
      else Replace(description, "$", format(minValue1))
    }

    method SetModId(value: string)
      modifies this`modId, this`changes
      ensures modId == value
      ensures changes == old(changes) + Notice(old(modId) != value, "ModID")
    {
      if modId != value {
        modId := value;
        changes := changes + ["ModID"];
      }
    }

    method SetDescription(value: string)
      modifies this`description, this`changes
      ensures description == value
      ensures changes == old(changes) + Notice(old(description) != value, "Description")
    {
      if description != value {
        description := value;
        changes := changes + ["Description"];
      }
    }

    method SetRequiredContent(value: string)
      modifies this`requiredContent, this`changes
      ensures requiredContent == value
      ensures changes == old(changes) + Notice(old(requiredContent) != value, "RequiredContent")
    {
      if requiredContent != value {
        requiredContent := value;
        changes := changes + ["RequiredContent"];
      }
    }

    method SetWeight(value: real)
      modifies this`weight, this`changes
      ensures weight == value
      ensures changes == old(changes) + Notice(old(weight) != value, "Weight")
    {
      if weight != value {
        weight := value;
        changes := changes + ["Weight"];
      }
    }

    method SetMinValueToShow(value: real)
      modifies this`minValueToShow, this`changes
      ensures minValueToShow == value
      ensures changes == old(changes) + Notice(old(minValueToShow) != value, "MinValueToShow")
    {
      if minValueToShow != value {
        minValueToShow := value;
        changes := changes + ["MinValueToShow"];
      }
    }

    method SetColor(value: Color)
      modifies this`color, this`changes
      ensures color == value
      ensures changes == old(changes) + Notice(old(color) != value, "Color")
    {
      if color != value {
        color := value;
        changes := changes + ["Color"];
      }
    }

    method SetMinValue1(value: real)
      modifies this`minValue1, this`changes
      ensures minValue1 == value
      ensures changes == old(changes) + Notice(old(minValue1) != value, "MinValue1")
    {
      if minValue1 != value {
        minValue1 := value;
        changes := changes + ["MinValue1"];
      }
    }

    method SetMaxValue1(value: real)
      modifies this`maxValue1, this`changes
      ensures maxValue1 == value
      ensures changes == old(changes) + Notice(old(maxValue1) != value, "MaxValue1")
    {
      if maxValue1 != value {
        maxValue1 := value;
        changes := changes + ["MaxValue1"];
      }
    }

    method SetName(value: string)
      modifies this`name, this`changes
      ensures name == value
      ensures changes == old(changes) + Notice(old(name) != value, "Name")
    {
      if name != value {
        name := value;
        changes := changes + ["Name"];
      }
    }

    method SetMinValue2(value: real)
      modifies this`minValue2, this`changes
      ensures minValue2 == value
      ensures changes == old(changes) + Notice(old(minValue2) != value, "MinValue2")
    {
      if minValue2 != value {
        minValue2 := value;
        changes := changes + ["MinValue2"];
      }
    }

    method SetMaxValue2(value: real)
      modifies this`maxValue2, this`changes
      ensures maxValue2 == value
      ensures changes == old(changes) + Notice(old(maxValue2) != value, "MaxValue2")
    {
      if maxValue2 != value {
        maxValue2 := value;
        changes := changes + ["MaxValue2"];
      }
    }

    method SetStat2(value: string)
      modifies this`stat2, this`changes
      ensures stat2 == value
      ensures changes == old(changes) + Notice(old(stat2) != value, "Stat2")
    {
      if stat2 != value {
        stat2 := value;
        changes := changes + ["Stat2"];
      }
    }

    method SetShowOnMap(value: bool)
      modifies this`showOnMap, this`changes
      ensures showOnMap == value
      ensures changes == old(changes) + Notice(old(showOnMap) != value, "ShowOnMap")
    {
      if showOnMap != value {
        showOnMap := value;
        changes := changes + ["ShowOnMap"];
      }
    }
  }

  /** Mod.ToString of a single value: each "$" becomes the value and every
      other character is kept. */
  lemma ModTextSingle(m: Mod, format: real -> string)
    requires m.minValue1 == m.maxValue1
    ensures m.ToString(format) == ReplaceCharSpec(m.description, '$', format(m.minValue1))
  {
    ReplaceCharIsSpec(m.description, '$', format(m.minValue1));
  }

  /** Mod.ToString of a range: each "$" becomes "min-max". */
  lemma ModTextRange(m: Mod, format: real -> string)
    requires m.minValue1 != m.maxValue1
    ensures m.ToString(format) ==
      ReplaceCharSpec(m.description, '$', format(m.minValue1) + "-" + format(m.maxValue1))
  {
    ReplaceCharIsSpec(m.description, '$', format(m.minValue1) + "-" + format(m.maxValue1));
  }

  /** A description without a placeholder is shown as it is. */
  lemma ModTextNoPlaceholder(m: Mod, format: real -> string)
    requires '$' !in m.description
    ensures m.ToString(format) == m.description
  {
    ReplaceCharAbsent(m.description, '$', format(m.minValue1));
    ReplaceCharAbsent(m.description, '$', format(m.minValue1) + "-" + format(m.maxValue1));
  }

  /** No placeholder survives when the formatted numbers hold none. */
  lemma ModTextFillsAll(m: Mod, format: real -> string)
    requires '$' !in format(m.minValue1) && '$' !in format(m.maxValue1)
    ensures '$' !in m.ToString(format)
  {
    ReplaceCharRemovesAll(m.description, '$', format(m.minValue1));
    ReplaceCharRemovesAll(m.description, '$', format(m.minValue1) + "-" + format(m.maxValue1));
  }

  // ---------------------------------------------------------------------
  // Content
  // ---------------------------------------------------------------------

  class Content {
    var name: string
    var weight: real
    var color: Color
    var highlight: bool
    var changes: seq<string>

    /** new Content(): weight 1, white, highlighted; the name starts as "". */
    constructor()
      ensures name == "" && weight == 1.0 && color == White && highlight
      ensures changes == []
    {
      name := "";
      weight := 1.0;
      color := White;
      highlight := true;
      changes := [];
    }

    /** The display text of a content type is its name. */
    function ToString(): (r: string)
      reads this
      ensures r == name
    {
      name
    }

    method SetName(value: string)
      modifies this`name, this`changes
      ensures name == value
      ensures changes == old(changes) + Notice(old(name) != value, "Name")
    {
      if name != value {
        name := value;
        changes := changes + ["Name"];
      }
    }

    method SetWeight(value: real)
      modifies this`weight, this`changes
      ensures weight == value
      ensures changes == old(changes) + Notice(old(weight) != value, "Weight")
    {
      if weight != value {
        weight := value;
        changes := changes + ["Weight"];
      }
    }

    method SetColor(value: Color)
      modifies this`color, this`changes
      ensures color == value
      ensures changes == old(changes) + Notice(old(color) != value, "Color")
    {
      if color != value {
        color := value;
        changes := changes + ["Color"];
      }
    }

    method SetHighlight(value: bool)
      modifies this`highlight, this`changes
      ensures highlight == value
      ensures changes == old(changes) + Notice(old(highlight) != value, "Highlight")
    {
      if highlight != value {
        highlight := value;
        changes := changes + ["Highlight"];
      }
    }
  }

  // ---------------------------------------------------------------------
  // Biome
  // ---------------------------------------------------------------------

  /** A biome definition, reduced to the two properties the scoring reads. */
  class Biome {
    var name: string
    var weight: real

    constructor(name: string, weight: real)
      ensures this.name == name && this.weight == weight
    {
      this.name := name;
      this.weight := weight;
    }
  }
}
