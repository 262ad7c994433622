/**
 * Effect: one map modifier that nearby towers apply to an atlas node, with
 * its accumulated value, the coordinates of the towers that contribute it
 * and the weight it adds to the node.
 */
module Effects {
  import opened Text
  import opened Codecs
  import opened Definitions

  /** The text "(x, y)" of one source coordinate. */
  function SourceText(v: Vector2i): string {
    "(" + IntToString(v.x) + ", " + IntToString(v.y) + ")"
  }

  /** The source texts in list order. */
  function SourceTexts(sources: seq<Vector2i>): (r: seq<string>)
    ensures |r| == |sources|
    ensures forall i :: 0 <= i < |sources| ==> r[i] == SourceText(sources[i])
  {
    if |sources| == 0 then [] else [SourceText(sources[0])] + SourceTexts(sources[1..])
  }

  class Effect {
    var name: string
    var description: string
    var enabled: bool
    /** The value the description's placeholder shows. */
    var value1: int
    var value2: int
    /** The modifier id, a C# long. */
    var id: int
    var weight: real
    var sources: seq<Vector2i>
    /** The property names raised through PropertyChanged so far. */
    var changes: seq<string>

    /** new Effect(): no sources yet. */
    constructor()
      ensures name == "" && description == "" && !enabled
      ensures value1 == 0 && value2 == 0 && id == 0 && weight == 0.0
      ensures sources == [] && changes == []
    {
      name := "";
      description := "";
      enabled := false;
      value1 := 0;
      value2 := 0;
      id := 0;
      weight := 0.0;
      sources := [];
      changes := [];
    }

    /** The key under which the modifier's definition is looked up:
        ID.ToString(). */
    function Key(): string
      reads this`id
    {
      IntToString(id)
    }

    /** The weight RecalculateWeight assigns: the modifier's weight times
        Value1 when the effect is enabled and its modifier is defined, else
        0. */
    function WeightFor(mods: map<string, Mod>): (w: real)
      reads this`enabled, this`id, this`value1, mods.Values`weight
      ensures !enabled || Key() !in mods ==> w == 0.0
      ensures enabled && Key() in mods ==> w == mods[Key()].weight * value1 as real
    {
      if enabled && IntToString(id) in mods then mods[IntToString(id)].weight * value1 as real else 0.0
    }

    /** RecalculateWeight: assigns the weight through its setter. */
    method RecalculateWeight(mods: map<string, Mod>)
      modifies this`weight, this`changes
      ensures weight == WeightFor(mods)
      ensures changes == old(changes) + Notice(old(weight) != weight, "Weight")
    {
      var w := if enabled && IntToString(id) in mods then mods[IntToString(id)].weight * value1 as real else 0.0;
      SetWeight(w);
    }

    /** ToString: every "$" of the description becomes Value1. */
    function ToString(): string
      reads this`description, this`value1
    {
      Replace(description, "$", IntToString(value1))
    }

    /** GetSources: "(x, y)" per source, in list order, separated by ", ". */
    function GetSources(): (r: string)
      reads this`sources
      ensures |sources| == 0 ==> r == ""
      ensures |sources| == 1 ==> r == SourceText(sources[0])
    {
      Join(SourceTexts(sources), ", ")
    }

    /** Sources.Add: the list grows in place; no notification. */
    method AddSource(source: Vector2i)
      modifies this`sources
      ensures sources == old(sources) + [source]
    {
      sources := sources + [source];
    }

    method SetName(value: string)
      modifies this`name, this`changes
      ensures name == value
      ensures changes == old(changes) + Notice(old(name) != value, "Name")
    {
      if name != value {
        name := value;
        changes := changes + ["Name"];
      }
    }

    method SetDescription(value: string)
      modifies this`description, this`changes
      ensures description == value
      ensures changes == old(changes) + Notice(old(description) != value, "Description")
    {
      if description != value {
        description := value;
        changes := changes + ["Description"];
      }
    }

    /** The Enabled setter raises the field's name, "enabled". */
    method SetEnabled(value: bool)
      modifies this`enabled, this`changes
      ensures enabled == value
      ensures changes == old(changes) + Notice(old(enabled) != value, "enabled")
    {
      if enabled != value {
        enabled := value;
        changes := changes + ["enabled"];
      }
    }

    method SetValue1(value: int)
      modifies this`value1, this`changes
      ensures value1 == value
      ensures changes == old(changes) + Notice(old(value1) != value, "Value1")
    {
      if value1 != value {
        value1 := value;
        changes := changes + ["Value1"];
      }
    }

    method SetValue2(value: int)
      modifies this`value2, this`changes
      ensures value2 == value
      ensures changes == old(changes) + Notice(old(value2) != value, "Value2")
    {
      if value2 != value {
        value2 := value;
        changes := changes + ["Value2"];
      }
    }

    method SetId(value: int)
      modifies this`id, this`changes
      ensures id == value
      ensures changes == old(changes) + Notice(old(id) != value, "ID")
    {
      if id != value {
        id := value;
        changes := changes + ["ID"];
      }
    }

    method SetWeight(value: real)
      modifies this`weight, this`changes
      ensures weight == value
      ensures changes == old(changes) + Notice(old(weight) != value, "Weight")
    {
      if weight != value {
        weight := value;
        changes := changes + ["Weight"];
      }
    }

    /** The Sources setter compares list references; every list the core
        assigns is a new one, so it always notifies. */
    method SetSources(value: seq<Vector2i>)
      modifies this`sources, this`changes
      ensures sources == value
      ensures changes == old(changes) + ["Sources"]
    {
      sources := value;
      changes := changes + ["Sources"];
    }
  }

  /** ToString fills every placeholder with the printed Value1 and keeps
      every other character. */
  lemma EffectTextFillsValue(e: Effect)
    ensures e.ToString() == ReplaceCharSpec(e.description, '$', IntToString(e.value1))
    ensures '$' !in e.ToString()
  {
    ReplaceCharIsSpec(e.description, '$', IntToString(e.value1));
    IntToStringIsSignedDigits(e.value1);
    ReplaceCharRemovesAll(e.description, '$', IntToString(e.value1));
  }

  /** The source list prints as one "(x, y)" per source, joined by ", ". */
  lemma {:induction false} SourcesTextAppend(sources: seq<Vector2i>, v: Vector2i)
    requires |sources| > 0
    ensures Join(SourceTexts(sources + [v]), ", ") == Join(SourceTexts(sources), ", ") + ", " + SourceText(v)
    decreases |sources|
  {
    var t := sources + [v];
    assert t[1..] == sources[1..] + [v];
    if |sources| > 1 {
      SourcesTextAppend(sources[1..], v);
    } else {
      assert SourceTexts(t[1..]) == [SourceText(v)];
    }
  }

  /** A disabled effect, or one whose modifier is not defined, weighs
      nothing, whatever its value. */
  lemma DisabledEffectWeighsNothing(e: Effect, mods: map<string, Mod>)
    requires !e.enabled || IntToString(e.id) !in mods
    ensures e.WeightFor(mods) == 0.0
  {
  }

  /** The properties of an Effect that the cache sets. */
  datatype Tally = Tally(name: string, description: string, value1: int, id: int, enabled: bool, sources: seq<Vector2i>)

  /** The properties the cache sets, of one effect. */
  ghost function TallyOf(e: Effect): Tally
    reads e`name, e`description, e`value1, e`id, e`enabled, e`sources
  {
    Tally(e.name, e.description, e.value1, e.id, e.enabled, e.sources)
  }

  /** The properties the cache sets, of every effect of a dictionary. */
  ghost function EffectState(es: map<string, Effect>): (r: map<string, Tally>)
    reads es.Values`name, es.Values`description, es.Values`value1, es.Values`id, es.Values`enabled, es.Values`sources
    ensures r.Keys == es.Keys
  {
    map k | k in es :: Tally(es[k].name, es[k].description, es[k].value1, es[k].id, es[k].enabled, es[k].sources)
  }
}
