/** The hooks of src/bf/input.cpp as the code that each thread runs (77-88, 127-202, 288-338, 398-415),
    when the other thread does not come in between; FreeLookRuns has every interleaving. */
module FreeLookHooks {
  import opened Wrappers
  import opened FreeLook
  import opened FreeLookRuns

  /** The axes that something else than the mouse can move, or that nothing moves. */
  ghost predicate MayBeReturned(remaps: seq<Remap>, place: Option<nat>) {
    place.Some? && place.value < |remaps| && (!remaps[place.value].HasMouse() || HasOther(remaps[place.value]))
  }

  /** Of the axes on offer the new values, of the others the old. */
  ghost predicate Published(axis: seq<Reading>, was: seq<Reading>, remaps: seq<Remap>, axes: Axes, offer: set<nat>, n: nat) {
    && |axis| == |was| == 3
    && forall i: nat :: i < 3 ==>
      axis[i] == if i < n && i in offer && axes[i].Some? && axes[i].value < |remaps| then remaps[axes[i].value].value else was[i]
  }

  class InputHooks {
    const enabled: bool
    var localVehicle: bool
    var flightAxis: seq<Reading>
    var restorable: set<nat>
    var protectView: bool
    var remaps: seq<Remap>

    constructor (enabled: bool, remaps: seq<Remap>)
      ensures this.enabled == enabled && this.remaps == remaps && !localVehicle && restorable == {} && !protectView
      ensures flightAxis == [ZERO, ZERO, ZERO]
    {
      this.enabled, this.remaps := enabled, remaps;
      localVehicle, restorable, protectView := false, {}, false;
      flightAxis := [ZERO, ZERO, ZERO];
    }

    /** One update of a control map. The engine is any function that keeps its promise. */
    method UpdateHook(trigger: Option<bool>, axes: Axes, engine: seq<Remap> -> seq<Remap>)
      requires Known(axes, |remaps|) && |flightAxis| == 3
      requires forall rs :: Updates(rs, engine(rs))
      modifies `flightAxis, `restorable, `remaps
      ensures SameDevices(remaps, old(remaps))
      ensures !enabled || trigger.None? ==>
        remaps == engine(old(remaps)) && flightAxis == old(flightAxis) && restorable == old(restorable)
      ensures enabled && trigger.Some? ==> forall i ::
        i in restorable <==> 0 <= i < 3 && trigger.value && localVehicle && MayBeReturned(old(remaps), axes[i])
      ensures enabled && trigger.Some? ==> Published(flightAxis, old(flightAxis), remaps, axes, restorable, 3)
      ensures AllFresh(old(remaps)) && enabled && trigger.Some? ==>
        AllFresh(remaps) && forall i :: i in restorable ==> !flightAxis[i].fromMouse
    {
      ghost var bindings := remaps;
      if !enabled || trigger.None? {
        assert Updates(remaps, engine(remaps));
        remaps := engine(remaps);
        SameAfter(bindings, remaps);
        return;
      }
      var active := trigger.value && localVehicle;
      var saved: seq<Saved>, offer: set<nat> := [], {};
      if active {
        var i := 0;
        while i < 3
          invariant 0 <= i <= 3
          invariant Hidden(remaps, saved, offer) == Hide(bindings, axes, i)
          modifies `remaps
        {
          saved, offer := HideMouseOf(axes[i], i, saved, offer);
          i := i + 1;
        }
        HideSaves(bindings, axes, 3);
      }
      ghost var hidden := remaps;
      assert OnLoan(hidden, saved, 0, bindings) && AllHiddenFrom(hidden, bindings) && MayReturn(hidden, axes, offer);
      assert Updates(remaps, engine(remaps));
      remaps := engine(remaps);
      ghost var after := remaps;
      StillOnLoan(hidden, after, saved, bindings);
      RestoreDevices(saved);
      AllPutBack(after, saved, bindings);
      if AllFresh(bindings) {
        CleanUpdate(bindings, hidden, after, remaps, axes, offer);
      }
      PublishAxes(axes, offer);
      restorable := offer;
      Offers(bindings, axes, active, offer);
    }

    /** One turn of the loop that hides: src/bf/input.cpp:159-183. */
    method HideMouseOf(place: Option<nat>, i: nat, saved: seq<Saved>, offer: set<nat>)
      returns (saved': seq<Saved>, offer': set<nat>)
      requires place.Some? ==> place.value < |remaps|
      modifies `remaps
      ensures Hidden(remaps, saved', offer') == HideOne(old(Hidden(remaps, saved, offer)), place, i)
    {
      saved', offer' := saved, offer;
      if place.None? {
        return;
      }
      var j := place.value;
      var mouse, hasOther := ClassifyMappings(remaps[j]);
      assert hasOther <==> IsOther(remaps[j].first) || IsOther(remaps[j].second) by {
        assert remaps[j].At(First) == remaps[j].first && remaps[j].At(Second) == remaps[j].second;
      }
      if mouse.None? {
        offer' := offer + {i};
        return;
      }
      if !hasOther {
        return;
      }
      saved' := saved + [Saved(j, mouse.value, remaps[j].At(mouse.value))];
      offer' := offer + {i};
      remaps := remaps[j := remaps[j].Set(mouse.value, UNAVAILABLE)];
    }

    /** src/bf/input.cpp:189-191. */
    method RestoreDevices(saved: seq<Saved>)
      requires InRange(saved, |remaps|)
      modifies `remaps
      ensures remaps == PutBack(old(remaps), saved, |saved|)
    {
      for i := 0 to |saved|
        invariant remaps == PutBack(old(remaps), saved, i)
      {
        var s := saved[i];
        remaps := remaps[s.remap := remaps[s.remap].Set(s.slot, s.device)];
      }
    }

    /** src/bf/input.cpp:195-199. */
    method PublishAxes(axes: Axes, offer: set<nat>)
      requires Known(axes, |remaps|) && |flightAxis| == 3 && forall i :: i in offer ==> i < 3 && axes[i].Some?
      modifies `flightAxis
      ensures Published(flightAxis, old(flightAxis), remaps, axes, offer, 3)
    {
      for i := 0 to 3
        invariant Published(flightAxis, old(flightAxis), remaps, axes, offer, i)
      {
        if i in offer {
          flightAxis := flightAxis[i := remaps[axes[i].value].value];
        }
      }
    }

    /** One frame of the local player: outside an aircraft and with the feature off it stays; in one the
        flight axes on offer get the published values, and nothing else changes. */
    method OnLocalPlayerInput(input: PlayerFrame, localPlayerInAircraft: bool) returns (frame: PlayerFrame)
      requires |flightAxis| == 3
      modifies `localVehicle, `protectView, `restorable
      ensures localVehicle == localPlayerInAircraft
      ensures enabled ==> (protectView <==> localPlayerInAircraft && LooksFreely(input))
      ensures !enabled ==> protectView == old(protectView) && restorable == old(restorable)
      ensures enabled ==> restorable == if localPlayerInAircraft then old(restorable) else {}
      ensures !enabled || !localPlayerInAircraft ==> frame == input
      ensures enabled && localPlayerInAircraft ==>
        frame.mask == input.mask &&
        forall c: nat :: c < 64 ==>
          frame.controls[c] == if c < 3 && c in restorable then flightAxis[c] else input.controls[c]
    {
      frame := input;
      localVehicle := localPlayerInAircraft;
      if !enabled {
        return;
      }
      protectView := localPlayerInAircraft && LooksFreely(input);
      if !localPlayerInAircraft {
        restorable := {};
        return;
      }
      var mask := restorable;
      if mask == {} {
        return;
      }
      for i := 0 to 3
        invariant frame.mask == input.mask
        invariant forall c: nat :: c < 64 ==>
          frame.controls[c] == if c < i && c in mask then flightAxis[c] else input.controls[c]
      {
        if i in mask {
          frame := SetControl(frame, i, flightAxis[i]);
        }
      }
    }

    /** What goes to the ring. The caller's object stays as it is: a sanitised action is another one. */
    method AddHook(action: PlayerAction?) returns (passed: PlayerAction?)
      ensures action == null ==> passed == null
      ensures action != null ==>
        && passed != null
        && ShowsNoFreeLook(enabled, Sending(action.value, localVehicle, passed.value))
        && (passed == action <==> !(enabled && localVehicle && ShowsFreeLook(action.value)))
        && (passed != action ==> fresh(passed))
    {
      hide ShowsNoFreeLook, ShowsFreeLook, Sanitised;
      passed := action;
      if action != null {
        SendsEither(enabled, action.value, localVehicle);
      }
      if action != null && enabled && localVehicle && ShowsFreeLook(action.value) {
        passed := new PlayerAction(Sanitised(action.value));
      }
    }
  }

  /** What the ring gets in either case. */
  lemma SendsEither(enabled: bool, action: Action, flying: bool)
    ensures enabled && flying && ShowsFreeLook(action) ==>
      ShowsNoFreeLook(enabled, Sending(action, flying, Sanitised(action)))
    ensures !(enabled && flying && ShowsFreeLook(action)) ==> ShowsNoFreeLook(enabled, Sending(action, flying, action))
  {
    ClearBit(action.buttons0);
  }

  class PlayerAction {
    var value: Action

    constructor (value: Action)
      ensures this.value == value
    {
      this.value := value;
    }
  }

  lemma SameAfter(before: seq<Remap>, after: seq<Remap>)
    requires Updates(before, after)
    ensures SameDevices(after, before)
  {
    assert forall j :: 0 <= j < |before| ==> Resolves(before[j], after[j]);
  }

  lemma StillOnLoan(hidden: seq<Remap>, after: seq<Remap>, saved: seq<Saved>, bindings: seq<Remap>)
    requires OnLoan(hidden, saved, 0, bindings) && Updates(hidden, after)
    ensures OnLoan(after, saved, 0, bindings)
  {
    forall j: nat, slot: Slot | j < |after| ensures Kept(after, saved, 0, bindings, j, slot) {
      assert Resolves(hidden[j], after[j]) && Kept(hidden, saved, 0, bindings, j, slot);
    }
  }

  lemma Offers(bindings: seq<Remap>, axes: Axes, active: bool, offer: set<nat>)
    requires Known(axes, |bindings|) && offer == if active then Hide(bindings, axes, 3).restorable else {}
    ensures forall i :: i in offer <==> 0 <= i < 3 && active && MayBeReturned(bindings, axes[i])
  {
    hide *;
    forall i ensures i in offer <==> 0 <= i < 3 && active && MayBeReturned(bindings, axes[i]) {
      if 0 <= i < 3 && active {
        OfferAt(bindings, axes, i);
      } else if active {
        NoOffer(bindings, axes, i);
      }
    }
  }

  lemma NoOffer(bindings: seq<Remap>, axes: Axes, i: int)
    requires Known(axes, |bindings|) && !(0 <= i < 3)
    ensures i !in Hide(bindings, axes, 3).restorable
  {
    hide *;
    HideSaves(bindings, axes, 3);
  }

  lemma OfferAt(bindings: seq<Remap>, axes: Axes, i: nat)
    requires Known(axes, |bindings|) && i < 3
    ensures i in Hide(bindings, axes, 3).restorable <==> MayBeReturned(bindings, axes[i])
  {
    hide Hide, HasOther;
    HideOffers(bindings, axes, 3, i);
  }
}
