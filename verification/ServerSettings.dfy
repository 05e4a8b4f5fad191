/** The settings of a server (src/settings.h:265-303) and how the text sets them
    (src/settings.cpp:269-393): the code on string views, against the tokens of ServerText. */
module ServerSettings {
  import opened Wrappers
  import opened ServerText
  import opened Strings

  datatype Mine = Mine(allow: bool, distance: int, color: nat, text: string)
  datatype Supply = Supply(allow: bool, distance: int)
  datatype ControlPoint = ControlPoint(allow: bool, distanceRadiusFactor: int)
  datatype Custom = Custom(templateName: string, text: string, distance: int, color: nat, onlySameTeam: bool, showDistance: bool)
  datatype Ui = Ui(openSpawnScreenOnDeath: bool, openSpawnScreenOnJoin: bool, allowFasterRestart: bool,
                   skipBriefingWindow: bool, showEnemyNametags: bool)

  datatype Settings = Settings(mine: Mine, supply: Supply, controlPoint: ControlPoint, custom: map<nat, Custom>, ui: Ui)

  /** The C library's number for the text at a pointer, which is null without a value; the color of a name;
      and the game's templates. */
  datatype Outside = Outside(number: Option<string> -> int, color: string -> nat, template: string -> Option<nat>)

  const FRESH_CUSTOM := Custom("", "", 30, 0xFFFF00, true, false)

  function Text(p: Param): string {
    if p.value.Some? then p.value.value else ""
  }

  // ---- What the parameters of each setting do.

  function MineParam(o: Outside, m: Mine, p: Param): Mine {
    if p.key == "D" then m.(distance := o.number(p.value))
    else if p.key == "C" then m.(color := o.color(Text(p)))
    else if p.key == "T" then m.(text := Text(p))
    else m
  }

  function MineParams(o: Outside, m: Mine, ps: seq<Param>): Mine
    decreases |ps|
  {
    if ps == [] then m else MineParams(o, MineParam(o, m, ps[0]), ps[1..])
  }

  function DistanceParams(o: Outside, m: Mine, ps: seq<Param>): Mine
    decreases |ps|
  {
    if ps == [] then m
    else DistanceParams(o, if ps[0].key == "D" then m.(distance := o.number(ps[0].value)) else m, ps[1..])
  }

  datatype Draft = Draft(custom: Custom, template: Option<nat>)

  function CustomParam(o: Outside, d: Draft, p: Param): Draft {
    if p.key == "t" then Draft(d.custom.(templateName := Text(p)), o.template(Text(p)))
    else if p.key == "T" then d.(custom := d.custom.(text := Text(p)))
    else if p.key == "D" then d.(custom := d.custom.(distance := o.number(p.value)))
    else if p.key == "C" then d.(custom := d.custom.(color := o.color(Text(p))))
    else if p.key == "A" then d.(custom := d.custom.(onlySameTeam := false))
    else if p.key == "sD" then d.(custom := d.custom.(showDistance := true))
    else d
  }

  predicate Fatal(o: Outside, p: Param) {
    p.key == "t" && o.template(Text(p)).None?
  }

  /** Up to a template that the game does not know. */
  function CustomParams(o: Outside, d: Draft, ps: seq<Param>): Draft
    decreases |ps|
  {
    if ps == [] then d
    else if Fatal(o, ps[0]) then CustomParam(o, d, ps[0])
    else CustomParams(o, CustomParam(o, d, ps[0]), ps[1..])
  }

  function UiParam(u: Ui, p: Param): Ui {
    if p.key == "hssdeath" then u.(openSpawnScreenOnDeath := false)
    else if p.key == "hssjoin" then u.(openSpawnScreenOnJoin := false)
    else if p.key == "nfr" then u.(allowFasterRestart := false)
    else if p.key == "sbw" then u.(skipBriefingWindow := true)
    else if p.key == "hen" then u.(showEnemyNametags := false)
    else u
  }

  function UiParams(u: Ui, ps: seq<Param>): Ui
    decreases |ps|
  {
    if ps == [] then u else UiParams(UiParam(u, ps[0]), ps[1..])
  }

  /** A marker with a known template is added, unless there is one for it already. */
  function Emplaced(custom: map<nat, Custom>, d: Draft): map<nat, Custom> {
    if d.template.None? || d.template.value in custom then custom
    else custom[d.template.value := if d.custom.text == "" then d.custom.(text := d.custom.templateName) else d.custom]
  }

  function Applied(o: Outside, s: Settings, item: Item): Settings {
    if item.name == "3DM" then s.(mine := MineParams(o, s.mine.(allow := true), item.params))
    else if item.name == "3DS" then
      s.(supply := s.supply.(allow := true), mine := DistanceParams(o, s.mine, item.params))
    else if item.name == "3DCP" then
      s.(controlPoint := s.controlPoint.(allow := true), mine := DistanceParams(o, s.mine, item.params))
    else if item.name == "3DO" then
      s.(custom := Emplaced(s.custom, CustomParams(o, Draft(FRESH_CUSTOM, None), item.params)))
    else if item.name == "UI" then s.(ui := UiParams(s.ui, item.params))
    else s
  }

  function AllApplied(o: Outside, s: Settings, items: seq<Item>): Settings
    decreases |items|
  {
    if items == [] then s else AllApplied(o, Applied(o, s, items[0]), items[1..])
  }

  // ---- What a text can do to the settings.

  /** What is allowed stays allowed, what is switched stays switched, and the first marker of a template
      stays; the distances of supply depots and control points never change. */
  ghost predicate OnlyAdds(s: Settings, t: Settings) {
    && (s.mine.allow ==> t.mine.allow)
    && t.supply.distance == s.supply.distance && (s.supply.allow ==> t.supply.allow)
    && t.controlPoint.distanceRadiusFactor == s.controlPoint.distanceRadiusFactor
    && (s.controlPoint.allow ==> t.controlPoint.allow)
    && (forall k :: k in s.custom ==> k in t.custom && t.custom[k] == s.custom[k])
    && (t.ui.openSpawnScreenOnDeath ==> s.ui.openSpawnScreenOnDeath) && (t.ui.openSpawnScreenOnJoin ==> s.ui.openSpawnScreenOnJoin)
    && (t.ui.allowFasterRestart ==> s.ui.allowFasterRestart) && (s.ui.skipBriefingWindow ==> t.ui.skipBriefingWindow)
    && (t.ui.showEnemyNametags ==> s.ui.showEnemyNametags)
  }

  lemma {:induction false} MineStaysAllowed(o: Outside, m: Mine, ps: seq<Param>)
    ensures MineParams(o, m, ps).allow == m.allow
    decreases |ps|
  {
    if ps != [] {
      MineStaysAllowed(o, MineParam(o, m, ps[0]), ps[1..]);
    }
  }

  lemma {:induction false} DistanceOnly(o: Outside, m: Mine, ps: seq<Param>)
    ensures DistanceParams(o, m, ps).(distance := m.distance) == m
    decreases |ps|
  {
    if ps != [] {
      DistanceOnly(o, if ps[0].key == "D" then m.(distance := o.number(ps[0].value)) else m, ps[1..]);
    }
  }

  lemma {:induction false} UiOnlyAdds(s: Settings, u: Ui, ps: seq<Param>)
    requires OnlyAdds(s, s.(ui := u))
    ensures OnlyAdds(s, s.(ui := UiParams(u, ps)))
    decreases |ps|
  {
    if ps != [] {
      UiOnlyAdds(s, UiParam(u, ps[0]), ps[1..]);
    }
  }

  lemma ItemOnlyAdds(o: Outside, s: Settings, item: Item)
    ensures OnlyAdds(s, Applied(o, s, item))
  {
    MineStaysAllowed(o, s.mine.(allow := true), item.params);
    DistanceOnly(o, s.mine, item.params);
    UiOnlyAdds(s, s.ui, item.params);
  }

  lemma {:induction false} TextOnlyAdds(o: Outside, s: Settings, items: seq<Item>)
    ensures OnlyAdds(s, AllApplied(o, s, items))
    decreases |items|
  {
    if items != [] {
      hide Applied, OnlyAdds;
      ItemOnlyAdds(o, s, items[0]);
      TextOnlyAdds(o, Applied(o, s, items[0]), items[1..]);
      Transitive(s, Applied(o, s, items[0]), AllApplied(o, s, items));
    }
  }

  lemma Transitive(s: Settings, t: Settings, u: Settings)
    requires OnlyAdds(s, t) && OnlyAdds(t, u)
    ensures OnlyAdds(s, u)
  {
  }

  /** The distance that is meant for supply depots or control points goes to the mines. */
  lemma DistanceGoesToMines(o: Outside, s: Settings, name: string, n: string)
    requires name == "3DS" || name == "3DCP"
    ensures var t := Applied(o, s, Item(name, [Param("D", Some(n))]));
      t.mine.distance == o.number(Some(n)) && t.supply.distance == s.supply.distance
      && t.controlPoint.distanceRadiusFactor == s.controlPoint.distanceRadiusFactor
  {
    var ps := [Param("D", Some(n))];
    assert ps[1..] == [];
    assert DistanceParams(o, s.mine, ps) == DistanceParams(o, s.mine.(distance := o.number(Some(n))), []);
  }

  // ---- Which parameter sets what.

  /** The last parameter with a key. */
  function LastWith(ps: seq<Param>, key: string): (p: Option<Param>)
    decreases |ps|
  {
    if ps == [] then None
    else
      var later := LastWith(ps[1..], key);
      if later.Some? then later else if ps[0].key == key then Some(ps[0]) else None
  }

  lemma {:induction false} LastIsLast(ps: seq<Param>, key: string)
    ensures LastWith(ps, key).None? <==> forall i :: 0 <= i < |ps| ==> ps[i].key != key
    ensures LastWith(ps, key).Some? ==> exists i :: 0 <= i < |ps| && ps[i] == LastWith(ps, key).value && ps[i].key == key
                                                 && forall j :: i < j < |ps| ==> ps[j].key != key
    decreases |ps|
  {
    if ps != [] {
      LastIsLast(ps[1..], key);
      var later := LastWith(ps[1..], key);
      if later.Some? {
        var i :| 0 <= i < |ps[1..]| && ps[1..][i] == later.value && ps[1..][i].key == key
              && forall j :: i < j < |ps[1..]| ==> ps[1..][j].key != key;
        assert ps[i + 1] == later.value;
        assert forall j :: i + 1 < j < |ps| ==> ps[j] == ps[1..][j - 1];
      } else {
        assert forall j :: 0 < j < |ps| ==> ps[j] == ps[1..][j - 1];
      }
    }
  }

  lemma LastFirst(ps: seq<Param>, key: string)
    requires ps != []
    ensures LastWith(ps, key) ==
      if LastWith(ps[1..], key).Some? then LastWith(ps[1..], key) else if ps[0].key == key then Some(ps[0]) else None
  {
  }

  /** The last parameter with a key, of the last item that has one among those of some names. */
  function LastIn(items: seq<Item>, names: set<string>, key: string): Option<Param>
    decreases |items|
  {
    if items == [] then None
    else
      var later := LastIn(items[1..], names, key);
      if later.Some? then later else if items[0].name in names then LastWith(items[0].params, key) else None
  }

  predicate Named(items: seq<Item>, name: string) {
    exists i :: 0 <= i < |items| && items[i].name == name
  }

  /** A key occurs in an item of some name. */
  predicate Occurs(items: seq<Item>, name: string, key: string) {
    exists i :: 0 <= i < |items| && items[i].name == name && LastWith(items[i].params, key).Some?
  }

  function Texts(p: Option<Param>, otherwise: string): string {
    if p.Some? then Text(p.value) else otherwise
  }

  function Colors(o: Outside, p: Option<Param>, otherwise: nat): nat {
    if p.Some? then o.color(Text(p.value)) else otherwise
  }

  function Numbers(o: Outside, p: Option<Param>, otherwise: int): int {
    if p.Some? then o.number(p.value.value) else otherwise
  }

  /** The template of a marker: the last one given, if the game knows all that are given. */
  function TemplateOf(o: Outside, ps: seq<Param>): Option<nat> {
    if exists i :: 0 <= i < |ps| && Fatal(o, ps[i]) then None
    else
      var t := LastWith(ps, "t");
      if t.Some? then o.template(Text(t.value)) else None
  }

  /** A marker: each field from the last parameter with its key, the name for a missing or empty text. */
  function MarkerOf(o: Outside, ps: seq<Param>): Custom {
    var name, text := Texts(LastWith(ps, "t"), ""), Texts(LastWith(ps, "T"), "");
    Custom(name, if text == "" then name else text, Numbers(o, LastWith(ps, "D"), 30), Colors(o, LastWith(ps, "C"), 0xFFFF00),
           LastWith(ps, "A").None?, LastWith(ps, "sD").Some?)
  }

  /** The first item that places a marker on a template. */
  function FirstMarker(o: Outside, items: seq<Item>, template: nat): Option<Custom>
    decreases |items|
  {
    if items == [] then None
    else if items[0].name == "3DO" && TemplateOf(o, items[0].params) == Some(template) then Some(MarkerOf(o, items[0].params))
    else FirstMarker(o, items[1..], template)
  }

  /** What items make of the mines. */
  ghost predicate MinesSet(o: Outside, s: Mine, t: Mine, items: seq<Item>) {
    && (t.allow <==> s.allow || Named(items, "3DM"))
    && t.distance == Numbers(o, LastIn(items, {"3DM", "3DS", "3DCP"}, "D"), s.distance)
    && t.color == Colors(o, LastIn(items, {"3DM"}, "C"), s.color)
    && t.text == Texts(LastIn(items, {"3DM"}, "T"), s.text)
  }

  /** Each switch of the interface has its key. */
  ghost predicate UiSet(s: Ui, t: Ui, items: seq<Item>) {
    && (t.openSpawnScreenOnDeath <==> s.openSpawnScreenOnDeath && !Occurs(items, "UI", "hssdeath"))
    && (t.openSpawnScreenOnJoin <==> s.openSpawnScreenOnJoin && !Occurs(items, "UI", "hssjoin"))
    && (t.allowFasterRestart <==> s.allowFasterRestart && !Occurs(items, "UI", "nfr"))
    && (t.skipBriefingWindow <==> s.skipBriefingWindow || Occurs(items, "UI", "sbw"))
    && (t.showEnemyNametags <==> s.showEnemyNametags && !Occurs(items, "UI", "hen"))
  }

  /** A template keeps its marker, or gets the first one. */
  ghost predicate MarkersSet(o: Outside, s: map<nat, Custom>, t: map<nat, Custom>, items: seq<Item>) {
    forall k: nat ::
      if k in s then k in t && t[k] == s[k]
      else
        var first := FirstMarker(o, items, k);
        (k in t <==> first.Some?) && (k in t ==> t[k] == first.value)
  }

  /** All that items do to the settings. */
  ghost predicate SetBy(o: Outside, s: Settings, t: Settings, items: seq<Item>) {
    && MinesSet(o, s.mine, t.mine, items)
    && t.supply == s.supply.(allow := s.supply.allow || Named(items, "3DS"))
    && t.controlPoint == s.controlPoint.(allow := s.controlPoint.allow || Named(items, "3DCP"))
    && MarkersSet(o, s.custom, t.custom, items) && UiSet(s.ui, t.ui, items)
  }

  lemma {:induction false} MineParamsSet(o: Outside, m: Mine, ps: seq<Param>)
    ensures MineParams(o, m, ps) == Mine(m.allow, Numbers(o, LastWith(ps, "D"), m.distance), Colors(o, LastWith(ps, "C"), m.color),
                                         Texts(LastWith(ps, "T"), m.text))
    decreases |ps|
  {
    if ps != [] {
      MineParamsSet(o, MineParam(o, m, ps[0]), ps[1..]);
    }
  }

  lemma {:induction false} DistanceParamsSet(o: Outside, m: Mine, ps: seq<Param>)
    ensures DistanceParams(o, m, ps) == m.(distance := Numbers(o, LastWith(ps, "D"), m.distance))
    decreases |ps|
  {
    if ps != [] {
      DistanceParamsSet(o, if ps[0].key == "D" then m.(distance := o.number(ps[0].value)) else m, ps[1..]);
    }
  }

  lemma {:induction false} UiParamsSet(u: Ui, ps: seq<Param>)
    ensures UiParams(u, ps) == Ui(
      u.openSpawnScreenOnDeath && LastWith(ps, "hssdeath").None?, u.openSpawnScreenOnJoin && LastWith(ps, "hssjoin").None?,
      u.allowFasterRestart && LastWith(ps, "nfr").None?, u.skipBriefingWindow || LastWith(ps, "sbw").Some?,
      u.showEnemyNametags && LastWith(ps, "hen").None?)
    decreases |ps|
  {
    if ps != [] {
      UiParamsSet(UiParam(u, ps[0]), ps[1..]);
      LastFirst(ps, "hssdeath");
      LastFirst(ps, "hssjoin");
      LastFirst(ps, "nfr");
      LastFirst(ps, "sbw");
      LastFirst(ps, "hen");
      hide LastWith;
    }
  }

  lemma {:induction false} CustomParamsSet(o: Outside, d: Draft, ps: seq<Param>)
    requires forall i :: 0 <= i < |ps| ==> !Fatal(o, ps[i])
    ensures var c, r, t := d.custom, CustomParams(o, d, ps), LastWith(ps, "t");
      && r.template == (if t.Some? then o.template(Text(t.value)) else d.template)
      && r.custom == Custom(Texts(t, c.templateName), Texts(LastWith(ps, "T"), c.text), Numbers(o, LastWith(ps, "D"), c.distance),
           Colors(o, LastWith(ps, "C"), c.color), c.onlySameTeam && LastWith(ps, "A").None?, c.showDistance || LastWith(ps, "sD").Some?)
    decreases |ps|
  {
    if ps != [] {
      CustomParamsSet(o, CustomParam(o, d, ps[0]), ps[1..]);
      LastFirst(ps, "t");
      LastFirst(ps, "T");
      LastFirst(ps, "D");
      LastFirst(ps, "C");
      LastFirst(ps, "A");
      LastFirst(ps, "sD");
      hide LastWith;
    }
  }

  lemma {:induction false} UnknownTemplate(o: Outside, d: Draft, ps: seq<Param>)
    requires exists i :: 0 <= i < |ps| && Fatal(o, ps[i])
    ensures CustomParams(o, d, ps).template == None
    decreases |ps|
  {
    if !Fatal(o, ps[0]) {
      var i :| 0 <= i < |ps| && Fatal(o, ps[i]);
      assert ps[1..][i - 1] == ps[i];
      UnknownTemplate(o, CustomParam(o, d, ps[0]), ps[1..]);
    }
  }

  lemma MarkerPlaced(o: Outside, custom: map<nat, Custom>, ps: seq<Param>)
    ensures var t := TemplateOf(o, ps);
      Emplaced(custom, CustomParams(o, Draft(FRESH_CUSTOM, None), ps)) ==
        if t.None? || t.value in custom then custom else custom[t.value := MarkerOf(o, ps)]
  {
    hide CustomParams, LastWith, Fatal;
    if exists i :: 0 <= i < |ps| && Fatal(o, ps[i]) {
      UnknownTemplate(o, Draft(FRESH_CUSTOM, None), ps);
    } else {
      CustomParamsSet(o, Draft(FRESH_CUSTOM, None), ps);
    }
  }

  lemma NoItemsSet(o: Outside, s: Settings)
    ensures SetBy(o, s, s, [])
  {
  }

  lemma NamedFirst(items: seq<Item>, name: string)
    requires items != []
    ensures Named(items, name) <==> items[0].name == name || Named(items[1..], name)
  {
    if i :| 0 <= i < |items| && items[i].name == name {
      assert i > 0 ==> items[1..][i - 1] == items[i];
    }
    if i :| 0 <= i < |items[1..]| && items[1..][i].name == name {
      assert items[i + 1] == items[1..][i];
    }
  }

  lemma OccursFirst(items: seq<Item>, name: string, key: string)
    requires items != []
    ensures Occurs(items, name, key) <==>
      (items[0].name == name && LastWith(items[0].params, key).Some?) || Occurs(items[1..], name, key)
  {
    hide LastWith;
    if i :| 0 <= i < |items| && items[i].name == name && LastWith(items[i].params, key).Some? {
      assert i > 0 ==> items[1..][i - 1] == items[i];
    }
    if i :| 0 <= i < |items[1..]| && items[1..][i].name == name && LastWith(items[1..][i].params, key).Some? {
      assert items[i + 1] == items[1..][i];
    }
  }

  lemma MinesStep(o: Outside, s: Settings, u: Mine, items: seq<Item>)
    requires items != [] && MinesSet(o, Applied(o, s, items[0]).mine, u, items[1..])
    ensures MinesSet(o, s.mine, u, items)
  {
    var item := items[0];
    hide MineParams, DistanceParams, LastWith, Named;
    MineParamsSet(o, s.mine.(allow := true), item.params);
    DistanceParamsSet(o, s.mine, item.params);
    NamedFirst(items, "3DM");
  }

  lemma UiStep(o: Outside, s: Settings, u: Ui, items: seq<Item>)
    requires items != [] && UiSet(Applied(o, s, items[0]).ui, u, items[1..])
    ensures UiSet(s.ui, u, items)
  {
    hide UiParams, LastWith, Occurs;
    UiParamsSet(s.ui, items[0].params);
    OccursFirst(items, "UI", "hssdeath");
    OccursFirst(items, "UI", "hssjoin");
    OccursFirst(items, "UI", "nfr");
    OccursFirst(items, "UI", "sbw");
    OccursFirst(items, "UI", "hen");
  }

  lemma MarkersStep(o: Outside, s: Settings, u: map<nat, Custom>, items: seq<Item>)
    requires items != [] && MarkersSet(o, Applied(o, s, items[0]).custom, u, items[1..])
    ensures MarkersSet(o, s.custom, u, items)
  {
    hide CustomParams, MarkerOf, TemplateOf, Emplaced;
    MarkerPlaced(o, s.custom, items[0].params);
  }

  /** The meaning of all items together. */
  lemma {:induction false} ItemsSet(o: Outside, s: Settings, items: seq<Item>)
    ensures SetBy(o, s, AllApplied(o, s, items), items)
    decreases |items|
  {
    if items == [] {
      NoItemsSet(o, s);
    } else {
      var t := Applied(o, s, items[0]);
      ItemsSet(o, t, items[1..]);
      var u := AllApplied(o, s, items);
      MinesStep(o, s, u.mine, items);
      UiStep(o, s, u.ui, items);
      MarkersStep(o, s, u.custom, items);
      NamedFirst(items, "3DS");
      NamedFirst(items, "3DCP");
      hide MinesSet, UiSet, MarkersSet, MineParams, DistanceParams, CustomParams, Emplaced, UiParams, Named;
    }
  }

  // ---- What is given to the C library's number function.

  /** What strtol gets while parameters are read: the D parameters, in order. */
  function Distances(ps: seq<Param>): seq<Option<string>>
    decreases |ps|
  {
    if ps == [] then []
    else (if ps[0].key == "D" then [ps[0].value] else []) + Distances(ps[1..])
  }

  /** The same for a marker, whose parameters are read up to a template that the game does not know. */
  function CustomDistances(o: Outside, ps: seq<Param>): seq<Option<string>>
    decreases |ps|
  {
    if ps == [] || Fatal(o, ps[0]) then []
    else (if ps[0].key == "D" then [ps[0].value] else []) + CustomDistances(o, ps[1..])
  }

  predicate HasDistance(name: string) {
    name == "3DM" || name == "3DS" || name == "3DCP"
  }

  function Asked(o: Outside, item: Item): seq<Option<string>> {
    if HasDistance(item.name) then Distances(item.params)
    else if item.name == "3DO" then CustomDistances(o, item.params)
    else []
  }

  function AllAsked(o: Outside, items: seq<Item>): seq<Option<string>>
    decreases |items|
  {
    if items == [] then [] else Asked(o, items[0]) + AllAsked(o, items[1..])
  }

  lemma AskStep(was: seq<Option<string>>, now: seq<Option<string>>, ps: seq<Param>)
    requires ps != [] && now == if ps[0].key == "D" then was + [ps[0].value] else was
    ensures now + Distances(ps[1..]) == was + Distances(ps)
  {
    if ps[0].key == "D" {
      Assoc(was, [ps[0].value], Distances(ps[1..]));
    } else {
      assert [] + Distances(ps[1..]) == Distances(ps[1..]);
    }
  }

  lemma CustomAskStep(o: Outside, was: seq<Option<string>>, now: seq<Option<string>>, ps: seq<Param>)
    requires ps != [] && now == if ps[0].key == "D" then was + [ps[0].value] else was
    ensures Fatal(o, ps[0]) ==> now == was + CustomDistances(o, ps)
    ensures !Fatal(o, ps[0]) ==> now + CustomDistances(o, ps[1..]) == was + CustomDistances(o, ps)
  {
    if !Fatal(o, ps[0]) {
      if ps[0].key == "D" {
        Assoc(was, [ps[0].value], CustomDistances(o, ps[1..]));
      } else {
        assert [] + CustomDistances(o, ps[1..]) == CustomDistances(o, ps[1..]);
      }
    }
  }

  lemma NoneAsked(o: Outside, was: seq<Option<string>>)
    ensures was + Distances([]) == was && was + CustomDistances(o, []) == was
  {
  }

  /** The k-th parameter of an item is a distance that is read and has no value. */
  ghost predicate BareDistance(o: Outside, item: Item, k: nat) {
    && k < |item.params| && item.params[k] == Param("D", None)
    && (HasDistance(item.name) || (item.name == "3DO" && forall j :: 0 <= j < k ==> !Fatal(o, item.params[j])))
  }

  ghost predicate SomeBare(o: Outside, item: Item) {
    exists k: nat :: BareDistance(o, item, k)
  }

  lemma {:induction false} BareAmong(ps: seq<Param>)
    ensures None in Distances(ps) <==> exists k: nat :: k < |ps| && ps[k] == Param("D", None)
    decreases |ps|
  {
    if ps != [] {
      BareAmong(ps[1..]);
      if k: nat :| k < |ps| && ps[k] == Param("D", None) {
        assert k > 0 ==> ps[1..][k - 1] == ps[k];
      }
      if k: nat :| k < |ps[1..]| && ps[1..][k] == Param("D", None) {
        assert ps[k + 1] == ps[1..][k];
      }
    }
  }

  lemma {:induction false} BareBefore(o: Outside, ps: seq<Param>)
    ensures None in CustomDistances(o, ps) <==>
      exists k: nat :: k < |ps| && ps[k] == Param("D", None) && forall j :: 0 <= j < k ==> !Fatal(o, ps[j])
    decreases |ps|
  {
    if ps != [] && !Fatal(o, ps[0]) {
      BareBefore(o, ps[1..]);
      if k: nat :| k < |ps| && ps[k] == Param("D", None) && forall j :: 0 <= j < k ==> !Fatal(o, ps[j]) {
        if k > 0 {
          assert ps[1..][k - 1] == ps[k] && forall j :: 0 <= j < k - 1 ==> ps[1..][j] == ps[j + 1];
        }
      }
      if k: nat :| k < |ps[1..]| && ps[1..][k] == Param("D", None) && forall j :: 0 <= j < k ==> !Fatal(o, ps[1..][j]) {
        assert ps[k + 1] == ps[1..][k];
        assert forall j :: 0 < j < k + 1 ==> ps[j] == ps[1..][j - 1];
      }
    }
  }

  lemma BareAsked(o: Outside, item: Item)
    ensures None in Asked(o, item) <==> SomeBare(o, item)
  {
    BareAmong(item.params);
    BareBefore(o, item.params);
    hide Distances, CustomDistances, Fatal;
    if k: nat :| k < |item.params| && item.params[k] == Param("D", None) && HasDistance(item.name) {
      assert BareDistance(o, item, k);
    }
    if item.name == "3DO" {
      if k: nat :| k < |item.params| && item.params[k] == Param("D", None) && forall j :: 0 <= j < k ==> !Fatal(o, item.params[j]) {
        assert BareDistance(o, item, k);
      }
    }
  }

  /** A null pointer reaches strtol if and only if a distance that is read has no value. */
  lemma {:induction false} NullReaches(o: Outside, items: seq<Item>)
    ensures None in AllAsked(o, items) <==> exists i :: 0 <= i < |items| && SomeBare(o, items[i])
    decreases |items|
  {
    hide Asked, SomeBare;
    if items != [] {
      BareAsked(o, items[0]);
      NullReaches(o, items[1..]);
      if i :| 0 <= i < |items| && SomeBare(o, items[i]) {
        assert i > 0 ==> items[1..][i - 1] == items[i];
      }
      if i :| 0 <= i < |items[1..]| && SomeBare(o, items[1..][i]) {
        assert items[i + 1] == items[1..][i];
      }
    }
  }

  /** The shortest such text. */
  lemma NullExample(o: Outside)
    ensures Tokens("%3DM&D~") == [Item("3DM", [Param("D", None)])]
    ensures None in AllAsked(o, Tokens("%3DM&D~"))
  {
    hide Tokens, Find, AllAsked, SomeBare, BareDistance;
    var item := Item("3DM", [Param("D", None)]);
    Printed(item);
    NothingMore();
    ReadsProse([""], [item], "");
    Bare(o, item);
    assert SomeBare(o, [item][0]);
    NullReaches(o, [item]);
  }

  lemma Printed(item: Item)
    requires item == Item("3DM", [Param("D", None)])
    ensures Prose([""], [item]) + "" == "%3DM&D~" && ItemOk(item) && Free("", {'%'})
  {
    assert item.params[1..] == [] && [item][1..] == [] && [""][1..] == [];
    assert PrintParams(item.params) == "&D";
    assert Print(item) == "%3DM&D~";
  }

  lemma NothingMore()
    ensures Stops("")
  {
  }

  lemma Bare(o: Outside, item: Item)
    requires item == Item("3DM", [Param("D", None)])
    ensures SomeBare(o, item)
  {
    assert BareDistance(o, item, 0);
  }

  // ---- The code.

  /** One parameter off the front of a view. */
  method ParseNextParameter(view: string) returns (found: bool, rest: string, p: Param)
    ensures found <==> view != "" && view[0] == '&'
    ensures found ==> (p, rest) == NextParam(view) && |rest| < |view|
    ensures !found ==> rest == view
  {
    rest, p := view, Param("", None);
    found := view != "" && view[0] == '&';
    if found {
      rest := rest[1..];
      var end := Find(rest, {'=', '&', '~'});
      var key := rest[..end];
      rest := rest[|key|..];
      p := Param(key, None);
      if rest != "" && rest[0] == '=' {
        rest := rest[1..];
        var startOfNext := Find(rest, {'&'});
        var value := rest[..startOfNext];
        rest := rest[|value|..];
        p := Param(key, Some(value));
      }
    }
  }

  lemma NextToken(text: string, pos: nat)
    requires pos == Find(text, {'%'}) && pos < |text|
    ensures var str := text[pos + 1..]; var end := Find(str, {'~'});
      if end == |str| then Tokens(text) == []
      else
        var n := NameEnd(str[..end]);
        if n < end && str[..end][n] != '&' then Tokens(text) == []
        else
          && Tokens(text) != [] && Tokens(text)[0] == Item(str[..end][..n], ParamList(str[..end][n..]))
          && Tokens(text)[1..] == Tokens(str[end..])
  {
    hide Find, NameEnd, ParamList;
  }

  lemma NothingRead(text: string, pos: nat)
    requires pos == Find(text, {'%'}) == |text|
    ensures Tokens(text) == []
  {
    hide Find;
  }

  lemma NoItems(o: Outside, s: Settings, asked: seq<Option<string>>)
    ensures AllApplied(o, s, []) == s && asked + AllAsked(o, []) == asked
  {
  }

  lemma OneItem(o: Outside, s: Settings, asked: seq<Option<string>>, items: seq<Item>)
    requires items != []
    ensures AllApplied(o, s, items) == AllApplied(o, Applied(o, s, items[0]), items[1..])
    ensures asked + AllAsked(o, items) == (asked + Asked(o, items[0])) + AllAsked(o, items[1..])
  {
    hide Applied, Asked;
    Assoc(asked, Asked(o, items[0]), AllAsked(o, items[1..]));
  }

  class Server {
    const o: Outside
    var mine: Mine
    var supply: Supply
    var controlPoint: ControlPoint
    var custom: map<nat, Custom>
    var ui: Ui
    /** What strtol was given, in order. */
    ghost var asked: seq<Option<string>>

    constructor (o: Outside)
      ensures this.o == o
      ensures State() == Settings(Mine(false, 30, 0xff1493, "*MINE*"), Supply(false, 65), ControlPoint(false, 4), map[],
                                  Ui(true, true, true, false, true))
    {
      this.o := o;
      mine, supply, controlPoint := Mine(false, 30, 0xff1493, "*MINE*"), Supply(false, 65), ControlPoint(false, 4);
      custom, ui := map[], Ui(true, true, true, false, true);
      asked := [];
    }

    /** strtol, which does not look before it reads. */
    method Number(value: Option<string>) returns (n: int)
      modifies `asked
      ensures n == o.number(value) && asked == old(asked) + [value]
    {
      n := o.number(value);
      asked := asked + [value];
    }

    function State(): Settings
      reads this
    {
      Settings(mine, supply, controlPoint, custom, ui)
    }

    /** The settings after a text are those after its items, one by one. */
    method ParseFromText(text: string)
      modifies this
      ensures State() == AllApplied(o, old(State()), Tokens(text))
      ensures SetBy(o, old(State()), State(), Tokens(text))
      ensures asked == old(asked) + AllAsked(o, Tokens(text))
    {
      hide Find, NameEnd, ParamList, Applied, Asked, AllApplied, AllAsked, Tokens, SetBy;
      ItemsSet(o, State(), Tokens(text));
      var str := text;
      var pos := Find(str, {'%'});
      while pos < |str|
        invariant pos == Find(str, {'%'})
        invariant AllApplied(o, State(), Tokens(str)) == AllApplied(o, old(State()), Tokens(text))
        invariant asked + AllAsked(o, Tokens(str)) == old(asked) + AllAsked(o, Tokens(text))
        decreases |str|
      {
        ghost var was, before, items := State(), asked, Tokens(str);
        NextToken(str, pos);
        str := str[pos + 1..];
        var end := Find(str, {'~'});
        if end == |str| {
          NoItems(o, State(), asked);
          return;
        }
        var setting := str[..end];
        var nameEnd := NameEnd(setting);
        if nameEnd < |setting| && setting[nameEnd] != '&' {
          NoItems(o, State(), asked);
          return;
        }
        ApplySetting(setting[..nameEnd], setting[nameEnd..]);
        str := str[|setting|..];
        OneItem(o, was, before, items);
        pos := Find(str, {'%'});
      }
      NothingRead(str, pos);
      NoItems(o, State(), asked);
    }

    method ApplySetting(name: string, params: string)
      modifies this
      ensures State() == Applied(o, old(State()), Item(name, ParamList(params)))
      ensures asked == old(asked) + Asked(o, Item(name, ParamList(params)))
    {
      if 1 < |name| <= 4 {
        if name == "3DM" {
          mine := mine.(allow := true);
          ReadMine(params);
        } else if name == "3DS" {
          supply := supply.(allow := true);
          ReadDistance(params);
        } else if name == "3DCP" {
          controlPoint := controlPoint.(allow := true);
          ReadDistance(params);
        } else if name == "3DO" {
          var draft := ReadCustom(params);
          if draft.template.Some? {
            var c := draft.custom;
            if c.text == "" {
              c := c.(text := c.templateName);
            }
            if draft.template.value !in custom {
              custom := custom[draft.template.value := c];
            }
          }
        } else if name == "UI" {
          ReadUi(params);
        }
      }
    }

    method ReadMine(params: string)
      modifies `mine, `asked
      ensures mine == MineParams(o, old(mine), ParamList(params)) && asked == old(asked) + Distances(ParamList(params))
    {
      var found, rest, p := ParseNextParameter(params);
      ghost var view := params;
      while found
        invariant found ==> view != "" && view[0] == '&' && (p, rest) == NextParam(view) && |rest| < |view|
        invariant !found ==> ParamList(view) == []
        invariant MineParams(o, mine, ParamList(view)) == MineParams(o, old(mine), ParamList(params))
        invariant asked + Distances(ParamList(view)) == old(asked) + Distances(ParamList(params))
        decreases |view|
      {
        FirstOf(view);
        ghost var was, ps := asked, ParamList(view);
        if p.key == "D" {
          var n := Number(p.value);
          mine := mine.(distance := n);
        } else if p.key == "C" {
          mine := mine.(color := o.color(Text(p)));
        } else if p.key == "T" {
          mine := mine.(text := Text(p));
        }
        AskStep(was, asked, ps);
        view := rest;
        found, rest, p := ParseNextParameter(rest);
      }
      NoneAsked(o, asked);
    }

    method ReadDistance(params: string)
      modifies `mine, `asked
      ensures mine == DistanceParams(o, old(mine), ParamList(params)) && asked == old(asked) + Distances(ParamList(params))
    {
      var found, rest, p := ParseNextParameter(params);
      ghost var view := params;
      while found
        invariant found ==> view != "" && view[0] == '&' && (p, rest) == NextParam(view) && |rest| < |view|
        invariant !found ==> ParamList(view) == []
        invariant DistanceParams(o, mine, ParamList(view)) == DistanceParams(o, old(mine), ParamList(params))
        invariant asked + Distances(ParamList(view)) == old(asked) + Distances(ParamList(params))
        decreases |view|
      {
        FirstOf(view);
        ghost var was, ps := asked, ParamList(view);
        if p.key == "D" {
          var n := Number(p.value);
          mine := mine.(distance := n);
        }
        AskStep(was, asked, ps);
        view := rest;
        found, rest, p := ParseNextParameter(rest);
      }
      NoneAsked(o, asked);
    }

    method ReadCustom(params: string) returns (d: Draft)
      modifies `asked
      ensures d == CustomParams(o, Draft(FRESH_CUSTOM, None), ParamList(params))
      ensures asked == old(asked) + CustomDistances(o, ParamList(params))
    {
      d := Draft(FRESH_CUSTOM, None);
      var found, rest, p := ParseNextParameter(params);
      ghost var view := params;
      while found
        invariant found ==> view != "" && view[0] == '&' && (p, rest) == NextParam(view) && |rest| < |view|
        invariant !found ==> ParamList(view) == []
        invariant CustomParams(o, d, ParamList(view)) == CustomParams(o, Draft(FRESH_CUSTOM, None), ParamList(params))
        invariant asked + CustomDistances(o, ParamList(view)) == old(asked) + CustomDistances(o, ParamList(params))
        decreases |view|
      {
        FirstOf(view);
        ghost var was, ps := asked, ParamList(view);
        var c := d.custom;
        if p.key == "t" {
          d := Draft(c.(templateName := Text(p)), o.template(Text(p)));
          if d.template.None? {
            CustomAskStep(o, was, asked, ps);
            return;
          }
        } else if p.key == "T" {
          d := d.(custom := c.(text := Text(p)));
        } else if p.key == "D" {
          var n := Number(p.value);
          d := d.(custom := c.(distance := n));
        } else if p.key == "C" {
          d := d.(custom := c.(color := o.color(Text(p))));
        } else if p.key == "A" {
          d := d.(custom := c.(onlySameTeam := false));
        } else if p.key == "sD" {
          d := d.(custom := c.(showDistance := true));
        }
        CustomAskStep(o, was, asked, ps);
        view := rest;
        found, rest, p := ParseNextParameter(rest);
      }
      NoneAsked(o, asked);
    }

    method ReadUi(params: string)
      modifies `ui
      ensures ui == UiParams(old(ui), ParamList(params))
    {
      var found, rest, p := ParseNextParameter(params);
      ghost var view := params;
      while found
        invariant found ==> view != "" && view[0] == '&' && (p, rest) == NextParam(view) && |rest| < |view|
        invariant !found ==> ParamList(view) == []
        invariant UiParams(ui, ParamList(view)) == UiParams(old(ui), ParamList(params))
        decreases |view|
      {
        FirstOf(view);
        if p.key == "hssdeath" {
          ui := ui.(openSpawnScreenOnDeath := false);
        } else if p.key == "hssjoin" {
          ui := ui.(openSpawnScreenOnJoin := false);
        } else if p.key == "nfr" {
          ui := ui.(allowFasterRestart := false);
        } else if p.key == "sbw" {
          ui := ui.(skipBriefingWindow := true);
        } else if p.key == "hen" {
          ui := ui.(showEnemyNametags := false);
        }
        view := rest;
        found, rest, p := ParseNextParameter(rest);
      }
    }
  }

  lemma FirstOf(view: string)
    requires view != "" && view[0] == '&'
    ensures var next := NextParam(view); ParamList(view) != [] && ParamList(view)[0] == next.0 && ParamList(view)[1..] == ParamList(next.1)
  {
  }
}
