/** Flying with the keyboard or a joystick while the mouse looks around (src/bf/input.cpp:67-88, 127-202,
    288-338, 398-415). The engine's update is abstract: input.cpp:13-42 and input.h:44-53 say what it does
    with the devices of an axis, and Resolves is that much and no more. */
module FreeLook {
  import opened Wrappers

  type Device = bv32

  const NONE: Device := 0
  const MOUSE: Device := 1
  const UNAVAILABLE: Device := 0x4000_0000

  const YAW: nat := 0
  const PITCH: nat := 1
  const ROLL: nat := 2
  const MOUSE_LOOK: nat := 11
  const FLIGHT_AXES: seq<nat> := [YAW, PITCH, ROLL]

  predicate IsMouse(d: Device) {
    d & MOUSE != 0
  }

  /** The value of an axis. Whether the mouse had a part in it is not in the program: it is what the
      program is about. */
  datatype Reading = Reading(amount: real, fromMouse: bool)

  datatype Slot = First | Second

  datatype Remap = Remap(first: Device, second: Device, value: Reading) {
    function At(slot: Slot): Device {
      if slot == First then first else second
    }

    function Set(slot: Slot, d: Device): Remap {
      if slot == First then this.(first := d) else this.(second := d)
    }

    predicate HasMouse() {
      IsMouse(first) || IsMouse(second)
    }
  }

  /** What the engine promises of one axis: the devices stay, and the mouse gets into the value only
      through a mouse slot, or because it was there already and an empty first slot left it. */
  ghost predicate Resolves(before: Remap, after: Remap) {
    && after.first == before.first && after.second == before.second
    && (after.value.fromMouse ==> before.HasMouse() || (before.first == NONE && before.value.fromMouse))
  }

  ghost predicate Updates(before: seq<Remap>, after: seq<Remap>) {
    |after| == |before| && forall j :: 0 <= j < |before| ==> Resolves(before[j], after[j])
  }

  // ---- Hiding the mouse.

  predicate IsOther(d: Device) {
    d != NONE && !IsMouse(d)
  }

  /** The slot with the mouse, the second one if both have it. */
  function MouseSlot(r: Remap): Option<Slot> {
    if IsMouse(r.second) then Some(Second) else if IsMouse(r.first) then Some(First) else None
  }

  method ClassifyMappings(r: Remap) returns (mouse: Option<Slot>, hasOther: bool)
    ensures mouse == MouseSlot(r)
    ensures hasOther <==> exists slot: Slot :: IsOther(r.At(slot))
  {
    mouse, hasOther := None, false;
    var slots := [First, Second];
    for n := 0 to 2
      invariant mouse == if n == 2 then MouseSlot(r) else if n == 1 && IsMouse(r.first) then Some(First) else None
      invariant hasOther <==> exists slot: Slot :: IsOther(r.At(slot)) && slot in slots[..n]
    {
      var slot := slots[n];
      assert slots[..n + 1] == slots[..n] + [slot];
      if r.At(slot) != NONE {
        if IsMouse(r.At(slot)) {
          mouse := Some(slot);
        } else {
          assert IsOther(r.At(slot));
          hasOther := true;
        }
      }
    }
    assert forall slot: Slot :: slot in slots by {
      assert slots[0] == First && slots[1] == Second;
    }
    assert slots[..2] == slots;
  }

  type Axes = a: seq<Option<nat>> | |a| == 3 witness [None, None, None]

  /** A place in the list of axes; two of the three may lead to the same one. */
  ghost predicate Known(axes: Axes, count: nat) {
    forall i :: 0 <= i < 3 && axes[i].Some? ==> axes[i].value < count
  }

  datatype Saved = Saved(remap: nat, slot: Slot, device: Device)

  datatype Hidden = Hidden(remaps: seq<Remap>, saved: seq<Saved>, restorable: set<nat>)

  /** One axis: with no mouse nothing is hidden, and with nothing but the mouse neither. */
  function HideOne(h: Hidden, place: Option<nat>, i: nat): (r: Hidden)
    requires place.Some? ==> place.value < |h.remaps|
    ensures |r.remaps| == |h.remaps|
  {
    if place.None? then h
    else
      var j := place.value;
      var remap := h.remaps[j];
      match MouseSlot(remap)
      case None => h.(restorable := h.restorable + {i})
      case Some(slot) =>
        if IsOther(remap.first) || IsOther(remap.second) then
          Hidden(h.remaps[j := remap.Set(slot, UNAVAILABLE)],
                 h.saved + [Saved(j, slot, remap.At(slot))],
                 h.restorable + {i})
        else h
  }

  function Hide(remaps: seq<Remap>, axes: Axes, n: nat): (h: Hidden)
    requires Known(axes, |remaps|) && n <= 3
    ensures |h.remaps| == |remaps|
  {
    if n == 0 then Hidden(remaps, [], {}) else HideOne(Hide(remaps, axes, n - 1), axes[n - 1], n - 1)
  }

  predicate InRange(saved: seq<Saved>, count: nat) {
    forall k :: 0 <= k < |saved| ==> saved[k].remap < count
  }

  function PutBack(remaps: seq<Remap>, saved: seq<Saved>, n: nat): (r: seq<Remap>)
    requires n <= |saved| && InRange(saved, |remaps|)
    ensures |r| == |remaps|
  {
    if n == 0 then remaps
    else
      var r := PutBack(remaps, saved, n - 1);
      var s := saved[n - 1];
      r[s.remap := r[s.remap].Set(s.slot, s.device)]
  }

  /** The bindings that the player chose, and the devices while some of them are hidden: a device is the
      player's, or its own slot is on the list of saved ones with the player's. */
  ghost predicate SavedAre(saved: seq<Saved>, bindings: seq<Remap>) {
    InRange(saved, |bindings|) && forall k :: 0 <= k < |saved| ==> saved[k].device == bindings[saved[k].remap].At(saved[k].slot)
  }

  ghost predicate Kept(remaps: seq<Remap>, saved: seq<Saved>, n: nat, bindings: seq<Remap>, j: nat, slot: Slot)
    requires j < |remaps| && j < |bindings| && n <= |saved|
  {
    || remaps[j].At(slot) == bindings[j].At(slot)
    || (remaps[j].At(slot) == UNAVAILABLE && exists k :: n <= k < |saved| && saved[k].remap == j && saved[k].slot == slot)
  }

  ghost predicate OnLoan(remaps: seq<Remap>, saved: seq<Saved>, n: nat, bindings: seq<Remap>)
    requires n <= |saved|
  {
    && |remaps| == |bindings| && SavedAre(saved, bindings)
    && forall j: nat, slot: Slot :: j < |remaps| ==> Kept(remaps, saved, n, bindings, j, slot)
  }

  ghost predicate SameDevices(remaps: seq<Remap>, bindings: seq<Remap>) {
    && |remaps| == |bindings|
    && forall j :: 0 <= j < |remaps| ==> remaps[j].first == bindings[j].first && remaps[j].second == bindings[j].second
  }

  /** Whatever the engine does to the values meanwhile, putting back restores every binding. */
  lemma {:induction false} PutBackRestores(remaps: seq<Remap>, saved: seq<Saved>, n: nat, bindings: seq<Remap>)
    requires n <= |saved| && OnLoan(remaps, saved, 0, bindings)
    ensures OnLoan(PutBack(remaps, saved, n), saved, n, bindings)
    ensures forall j :: 0 <= j < |remaps| ==> PutBack(remaps, saved, n)[j].value == remaps[j].value
  {
    if n > 0 {
      PutBackRestores(remaps, saved, n - 1, bindings);
      var r := PutBack(remaps, saved, n - 1);
      var s := saved[n - 1];
      var t := PutBack(remaps, saved, n);
      forall j: nat, slot: Slot | j < |t| ensures Kept(t, saved, n, bindings, j, slot) {
        assert Kept(r, saved, n - 1, bindings, j, slot);
        if r[j].At(slot) != bindings[j].At(slot) && !(s.remap == j && s.slot == slot) {
          var k :| n - 1 <= k < |saved| && saved[k].remap == j && saved[k].slot == slot;
          assert k != n - 1;
        }
      }
    }
  }

  lemma AllPutBack(remaps: seq<Remap>, saved: seq<Saved>, bindings: seq<Remap>)
    requires OnLoan(remaps, saved, 0, bindings)
    ensures SameDevices(PutBack(remaps, saved, |saved|), bindings)
    ensures forall j :: 0 <= j < |remaps| ==> PutBack(remaps, saved, |saved|)[j].value == remaps[j].value
  {
    PutBackRestores(remaps, saved, |saved|, bindings);
    var t := PutBack(remaps, saved, |saved|);
    forall j | 0 <= j < |t| ensures t[j].first == bindings[j].first && t[j].second == bindings[j].second {
      assert Kept(t, saved, |saved|, bindings, j, First) && Kept(t, saved, |saved|, bindings, j, Second);
    }
  }

  /** A binding that the engine cannot have left a mouse reading in: with no mouse slot and an empty
      first slot, the value of the last update stays. */
  ghost predicate Fresh(r: Remap) {
    r.value.fromMouse ==> r.HasMouse() || r.first != NONE
  }

  ghost predicate AllFresh(remaps: seq<Remap>) {
    forall j :: 0 <= j < |remaps| ==> Fresh(remaps[j])
  }

  ghost predicate HasOther(r: Remap) {
    IsOther(r.first) || IsOther(r.second)
  }

  /** How hiding may have changed one axis: in no way, or one slot of two is off and neither is empty. */
  ghost predicate HiddenFrom(r: Remap, b: Remap) {
    || r == b
    || (r.first != NONE && r.second != NONE && !r.HasMouse() && r.value == b.value && b.HasMouse() && HasOther(b))
  }

  ghost predicate AllHiddenFrom(remaps: seq<Remap>, bindings: seq<Remap>) {
    |remaps| == |bindings| && forall j :: 0 <= j < |remaps| ==> HiddenFrom(remaps[j], bindings[j])
  }

  ghost predicate MayReturn(remaps: seq<Remap>, axes: Axes, restorable: set<nat>) {
    && Known(axes, |remaps|)
    && forall i :: i in restorable ==> i < 3 && axes[i].Some? && !remaps[axes[i].value].HasMouse()
  }

  /** After hiding, the bindings are all on the list, and no axis that may be handed back has a mouse
      slot left, even where two axes share one. */
  lemma {:induction false} HideSaves(remaps: seq<Remap>, axes: Axes, n: nat)
    requires Known(axes, |remaps|) && n <= 3
    ensures var h := Hide(remaps, axes, n);
      && OnLoan(h.remaps, h.saved, 0, remaps) && AllHiddenFrom(h.remaps, remaps)
      && MayReturn(h.remaps, axes, h.restorable)
      && forall i :: i in h.restorable ==> i < n
  {
    if n > 0 {
      HideSaves(remaps, axes, n - 1);
      var h := Hide(remaps, axes, n - 1);
      if axes[n - 1].Some? {
        var j := axes[n - 1].value;
        var slot := MouseSlot(h.remaps[j]);
        if slot.Some? && (IsOther(h.remaps[j].first) || IsOther(h.remaps[j].second)) {
          HideSlot(remaps, h, j, slot.value, axes, n - 1);
        }
      }
    }
  }

  lemma HideSlot(remaps: seq<Remap>, h: Hidden, j: nat, slot: Slot, axes: Axes, i: nat)
    requires OnLoan(h.remaps, h.saved, 0, remaps) && AllHiddenFrom(h.remaps, remaps)
    requires MayReturn(h.remaps, axes, h.restorable)
    requires i < 3 && j < |h.remaps| && axes[i] == Some(j) && MouseSlot(h.remaps[j]) == Some(slot)
    requires IsOther(h.remaps[j].first) || IsOther(h.remaps[j].second)
    ensures var r := HideOne(h, axes[i], i);
      OnLoan(r.remaps, r.saved, 0, remaps) && AllHiddenFrom(r.remaps, remaps) && MayReturn(r.remaps, axes, r.restorable)
  {
    var r := HideOne(h, axes[i], i);
    assert Kept(h.remaps, h.saved, 0, remaps, j, slot);
    assert r.saved[|h.saved|] == Saved(j, slot, remaps[j].At(slot));
    assert forall k :: 0 <= k < |h.saved| ==> r.saved[k] == h.saved[k];
    forall j': nat, s: Slot | j' < |remaps| ensures Kept(r.remaps, r.saved, 0, remaps, j', s) {
      assert Kept(h.remaps, h.saved, 0, remaps, j', s);
    }
    assert HiddenFrom(h.remaps[j], remaps[j]);
    assert Kept(h.remaps, h.saved, 0, remaps, j, First) && Kept(h.remaps, h.saved, 0, remaps, j, Second);
  }

  /** Exactly the axes that something else than the mouse can move, or that nothing moves, may be
      handed back. */
  lemma {:induction false} HideOffers(remaps: seq<Remap>, axes: Axes, n: nat, i: nat)
    requires Known(axes, |remaps|) && i < n <= 3
    ensures i in Hide(remaps, axes, n).restorable <==>
      axes[i].Some? && (!remaps[axes[i].value].HasMouse() || HasOther(remaps[axes[i].value]))
  {
    HideSaves(remaps, axes, n - 1);
    if i < n - 1 {
      HideOffers(remaps, axes, n - 1, i);
    } else if axes[i].Some? {
      assert HiddenFrom(Hide(remaps, axes, n - 1).remaps[axes[i].value], remaps[axes[i].value]);
    }
  }

  /** So the engine can only give clean values for those axes, and it leaves no stale mouse reading once
      the bindings are back. */
  lemma CleanUpdate(bindings: seq<Remap>, hidden: seq<Remap>, after: seq<Remap>, back: seq<Remap>, axes: Axes, restorable: set<nat>)
    requires AllFresh(bindings) && AllHiddenFrom(hidden, bindings) && MayReturn(hidden, axes, restorable)
    requires Updates(hidden, after) && SameDevices(back, bindings)
    requires forall j :: 0 <= j < |back| ==> back[j].value == after[j].value
    ensures forall i :: i in restorable ==> !after[axes[i].value].value.fromMouse
    ensures AllFresh(back)
  {
    forall i | i in restorable ensures !after[axes[i].value].value.fromMouse {
      var j := axes[i].value;
      assert HiddenFrom(hidden[j], bindings[j]) && Fresh(bindings[j]) && Resolves(hidden[j], after[j]);
    }
    forall j | 0 <= j < |back| ensures Fresh(back[j]) {
      assert HiddenFrom(hidden[j], bindings[j]) && Fresh(bindings[j]) && Resolves(hidden[j], after[j]);
    }
  }
}
