/** The input thread and the main thread of src/bf/input.cpp:126-202, 288-338 and 398-415 as a machine
    whose steps are the accesses to the shared atomics, taken in any order that each thread allows. The
    devices of the axes belong to the input thread alone. */
module FreeLookRuns {
  import opened Wrappers
  import opened FreeLook

  /** One frame of the player's input: which inputs are mapped, and their values. */
  datatype Frame = Frame(mask: bv64, controls: seq<Reading>)

  type PlayerFrame = f: Frame | |f.controls| == 64 witness Frame(0, seq(64, _ => Reading(0.0, false)))

  predicate LooksFreely(f: PlayerFrame) {
    f.mask & (1 << MOUSE_LOOK) != 0 && f.controls[MOUSE_LOOK].amount > 0.5
  }

  /** What goes over the wire. */
  datatype Action = Action(yaw: int, pitch: int, roll: int, throttle: int, mouseLookX: int, mouseLookY: int,
                           buttons0: bv32, buttons1: bv32, unknown: bv32)

  const BUTTON_MOUSE_LOOK: bv32 := 8

  predicate ShowsFreeLook(a: Action) {
    a.buttons0 & BUTTON_MOUSE_LOOK != 0
  }

  function Sanitised(a: Action): Action {
    a.(buttons0 := a.buttons0 & !BUTTON_MOUSE_LOOK, mouseLookX := 0, mouseLookY := 0)
  }

  // ---- The machine.

  datatype InputAt =
    | InputIdle
    | Plain
    | Deciding(held: bool, axes: Axes)
    | Hiding(active: bool, axes: Axes)
    | Updating(axes: Axes, saved: seq<Saved>, offer: set<nat>)
    | PuttingBack(axes: Axes, saved: seq<Saved>, offer: set<nat>)
    | Publishing(axes: Axes, offer: set<nat>, next: nat)

  datatype MainAt =
    | MainIdle
    | Storing(frame: PlayerFrame, flying: bool)
    | Viewing(frame: PlayerFrame, flying: bool)
    | Checking(frame: PlayerFrame, flying: bool)
    | Returning(frame: PlayerFrame, now: PlayerFrame, mask: set<nat>, next: nat)

  datatype Delivery = Delivery(before: PlayerFrame, flying: bool, after: PlayerFrame)

  datatype Sending = Sending(action: Action, flying: bool, passed: Action)

  /** The shared state, where both threads are, and what has come out: the frames as the main thread
      leaves them, the actions as the ring gets them, and the values that the engine ever gave for an axis
      that may be handed back. */
  datatype State = State(
    enabled: bool,
    localVehicle: bool,
    flightAxis: seq<Reading>,
    restorable: set<nat>,
    protectView: bool,
    remaps: seq<Remap>,
    input: InputAt,
    main: MainAt,
    bindings: seq<Remap>,
    given: set<(nat, Reading)>,
    inAircraft: bool,
    delivered: seq<Delivery>,
    sent: seq<Sending>)

  const ZERO := Reading(0.0, false)

  ghost predicate Init(s: State) {
    && !s.localVehicle && !s.inAircraft && s.flightAxis == [ZERO, ZERO, ZERO] && s.restorable == {} && !s.protectView
    && s.input == InputIdle && s.main == MainIdle && s.delivered == [] && s.sent == []
    && s.given == {(0, ZERO), (1, ZERO), (2, ZERO)}
    && s.bindings == s.remaps && AllFresh(s.remaps)
  }

  datatype Step =
    | BeginUpdate(trigger: Option<bool>, axes: Axes)
    | Decide
    | HideMouse
    | Engine(after: seq<Remap>)
    | PutBackDevices
    | PublishAxis
    | PublishMask
    | Rebind(remap: nat, first: Device, second: Device)
    | BeginFrame(frame: PlayerFrame, flying: bool)
    | StoreVehicle
    | StoreView
    | CheckAircraft
    | ReturnAxis
    | Send(action: Action)

  ghost predicate Enabled(s: State, step: Step) {
    match step
    case BeginUpdate(_, axes) => s.input == InputIdle && Known(axes, |s.remaps|)
    case Decide => s.input.Deciding?
    case HideMouse => s.input.Hiding? && Known(s.input.axes, |s.remaps|)
    case Engine(after) => (s.input.Plain? || s.input.Updating?) && Updates(s.remaps, after)
    case PutBackDevices => s.input.PuttingBack? && InRange(s.input.saved, |s.remaps|)
    case PublishAxis => s.input.Publishing? && s.input.next < 3 && Known(s.input.axes, |s.remaps|)
    case PublishMask => s.input.Publishing? && s.input.next >= 3
    case Rebind(j, _, _) => s.input == InputIdle && j < |s.remaps|
    case BeginFrame(_, _) => s.main == MainIdle
    case StoreVehicle => s.main.Storing?
    case StoreView => s.main.Viewing?
    case CheckAircraft => s.main.Checking?
    case ReturnAxis => s.main.Returning?
    case Send(_) => s.main == MainIdle
  }

  /** The values that the engine has just given for the axes on offer. */
  function Given(axes: Axes, offer: set<nat>, remaps: seq<Remap>): set<(nat, Reading)> {
    set i | i in offer && i < 3 && axes[i].Some? && axes[i].value < |remaps| :: (i, remaps[axes[i].value].value)
  }

  function Apply(s: State, step: Step): State
    requires Enabled(s, step) && |s.flightAxis| == 3
  {
    match step
    case BeginUpdate(trigger, axes) =>
      s.(input := if !s.enabled || trigger.None? then Plain else Deciding(trigger.value, axes))
    case Decide =>
      s.(input := Hiding(s.input.held && s.localVehicle, s.input.axes))
    case HideMouse =>
      if s.input.active then
        var h := Hide(s.remaps, s.input.axes, 3);
        s.(remaps := h.remaps, input := Updating(s.input.axes, h.saved, h.restorable))
      else
        s.(input := Updating(s.input.axes, [], {}))
    case Engine(after) =>
      if s.input.Plain? then s.(remaps := after, bindings := after, input := InputIdle)
      else
        s.(remaps := after, given := s.given + Given(s.input.axes, s.input.offer, after),
           input := PuttingBack(s.input.axes, s.input.saved, s.input.offer))
    case PutBackDevices =>
      var back := PutBack(s.remaps, s.input.saved, |s.input.saved|);
      s.(remaps := back, bindings := back, input := Publishing(s.input.axes, s.input.offer, 0))
    case PublishAxis =>
      var i := s.input.next;
      var place := s.input.axes[i];
      var at := s.input.(next := i + 1);
      if i in s.input.offer then
        s.(flightAxis := s.flightAxis[i := if place.Some? then s.remaps[place.value].value else ZERO], input := at)
      else
        s.(input := at)
    case PublishMask =>
      s.(restorable := s.input.offer, input := InputIdle)
    case Rebind(j, first, second) =>
      var remaps := s.remaps[j := Remap(first, second, s.remaps[j].value)];
      s.(remaps := remaps, bindings := remaps)
    case BeginFrame(frame, flying) =>
      s.(inAircraft := flying, main := Storing(frame, flying))
    case StoreVehicle =>
      var t := s.(localVehicle := s.main.flying);
      if s.enabled then t.(main := Viewing(s.main.frame, s.main.flying))
      else Deliver(t, s.main.frame, s.main.flying, s.main.frame)
    case StoreView =>
      s.(protectView := s.main.flying && LooksFreely(s.main.frame), main := Checking(s.main.frame, s.main.flying))
    case CheckAircraft =>
      if !s.main.flying then Deliver(s.(restorable := {}), s.main.frame, false, s.main.frame)
      else if s.restorable == {} then Deliver(s, s.main.frame, true, s.main.frame)
      else s.(main := Returning(s.main.frame, s.main.frame, s.restorable, 0))
    case ReturnAxis =>
      var i := s.main.next;
      if i >= 3 then Deliver(s, s.main.frame, true, s.main.now)
      else if i in s.main.mask then
        s.(main := s.main.(now := SetControl(s.main.now, i, s.flightAxis[i]), next := i + 1))
      else
        s.(main := s.main.(next := i + 1))
    case Send(action) =>
      var passed := if s.enabled && s.localVehicle && ShowsFreeLook(action) then Sanitised(action) else action;
      s.(sent := s.sent + [Sending(action, s.inAircraft, passed)])
  }

  function SetControl(f: PlayerFrame, i: nat, v: Reading): PlayerFrame
    requires i < 3
  {
    f.(controls := f.controls[FLIGHT_AXES[i] := v])
  }

  function Deliver(s: State, before: PlayerFrame, flying: bool, after: PlayerFrame): State {
    s.(main := MainIdle, delivered := s.delivered + [Delivery(before, flying, after)])
  }

  /** A run that both threads allow. */
  ghost predicate Legal(s: State, steps: seq<Step>)
    decreases |steps|
  {
    && |s.flightAxis| == 3
    && (steps == [] || (Enabled(s, steps[0]) && Legal(Apply(s, steps[0]), steps[1..])))
  }

  ghost function Run(s: State, steps: seq<Step>): State
    requires Legal(s, steps)
    decreases |steps|
  {
    if steps == [] then s else Run(Apply(s, steps[0]), steps[1..])
  }

  /** A new binding that does not leave a mouse reading where no device will overwrite it. */
  ghost predicate Careful(s: State, step: Step)
    requires Enabled(s, step)
  {
    step.Rebind? ==> Fresh(Remap(step.first, step.second, s.remaps[step.remap].value))
  }

  ghost predicate AllCareful(s: State, steps: seq<Step>)
    requires Legal(s, steps)
    decreases |steps|
  {
    steps == [] || (Careful(s, steps[0]) && AllCareful(Apply(s, steps[0]), steps[1..]))
  }

  ghost predicate NoRebind(steps: seq<Step>) {
    forall k :: 0 <= k < |steps| ==> !steps[k].Rebind?
  }

  // ---- What every step keeps.

  ghost predicate InputInv(s: State) {
    match s.input
    case InputIdle => s.remaps == s.bindings
    case Plain => s.remaps == s.bindings
    case Deciding(_, axes) => s.remaps == s.bindings && Known(axes, |s.remaps|)
    case Hiding(_, axes) => s.remaps == s.bindings && Known(axes, |s.remaps|)
    case Updating(axes, saved, offer) =>
      && OnLoan(s.remaps, saved, 0, s.bindings) && AllHiddenFrom(s.remaps, s.bindings) && MayReturn(s.remaps, axes, offer)
    case PuttingBack(axes, saved, offer) =>
      && OnLoan(s.remaps, saved, 0, s.bindings) && OnOffer(s, axes, offer)
      && (forall j :: 0 <= j < |s.remaps| ==> Fresh(s.bindings[j].(value := s.remaps[j].value)))
    case Publishing(axes, offer, next) => s.remaps == s.bindings && OnOffer(s, axes, offer) && next <= 3
  }

  ghost predicate OnOffer(s: State, axes: Axes, offer: set<nat>) {
    && Known(axes, |s.remaps|)
    && forall i :: i in offer ==> i < 3 && axes[i].Some? && (i, s.remaps[axes[i].value].value) in s.given
  }

  /** A frame with some flight axes handed back: each of those values is one that the engine gave for that
      very axis, and nothing else differs. */
  ghost predicate HandedBack(given: set<(nat, Reading)>, before: PlayerFrame, after: PlayerFrame) {
    && after.mask == before.mask
    && (forall c :: 3 <= c < 64 ==> after.controls[c] == before.controls[c])
    && forall i: nat :: i < 3 ==> after.controls[i] == before.controls[i] || (i, after.controls[i]) in given
  }

  ghost predicate MainInv(s: State) {
    match s.main
    case MainIdle => s.localVehicle == s.inAircraft
    case Storing(_, flying) => flying == s.inAircraft
    case Viewing(_, flying) => s.enabled && flying == s.inAircraft == s.localVehicle
    case Checking(_, flying) => s.enabled && flying == s.inAircraft == s.localVehicle
    case Returning(frame, now, mask, next) =>
      s.enabled && s.inAircraft && s.localVehicle && HandedBack(s.given, frame, now)
  }

  ghost predicate DeliveryOk(s: State, d: Delivery) {
    HandedBack(s.given, d.before, d.after) && (!d.flying || !s.enabled ==> d.after == d.before)
  }

  ghost predicate SendingOk(s: State, x: Sending) {
    x.passed == if s.enabled && x.flying && ShowsFreeLook(x.action) then Sanitised(x.action) else x.action
  }

  ghost predicate OutputInv(s: State) {
    && (forall k :: 0 <= k < |s.delivered| ==> DeliveryOk(s, s.delivered[k]))
    && (forall k :: 0 <= k < |s.sent| ==> SendingOk(s, s.sent[k]))
  }

  ghost predicate SharedInv(s: State) {
    && |s.flightAxis| == 3
    && (forall i: nat :: i < 3 ==> (i, s.flightAxis[i]) in s.given)
    && (forall g :: g in s.given ==> !g.1.fromMouse)
    && AllFresh(s.bindings)
  }

  ghost predicate Inv(s: State) {
    SharedInv(s) && InputInv(s) && MainInv(s) && OutputInv(s)
  }

  lemma InitInv(s: State)
    requires Init(s)
    ensures Inv(s)
  {
  }

  // Each step keeps the four parts.

  lemma GivenGrows(s: State, step: Step)
    requires Inv(s) && Enabled(s, step)
    ensures s.given <= Apply(s, step).given && Apply(s, step).enabled == s.enabled
  {
  }

  lemma KeepsShared(s: State, step: Step)
    requires Inv(s) && Enabled(s, step) && Careful(s, step)
    ensures SharedInv(Apply(s, step))
  {
    hide Hide, OutputInv, InputInv, MainInv, Given, Fresh, PutBack, AllFresh, OnLoan, Updates;
    match step
    case Engine(after) =>
      EngineShared(s, after);
    case PutBackDevices =>
      PutBackShared(s);
    case PublishAxis =>
      PublishShared(s);
    case Rebind(j, first, second) =>
      RebindShared(s, step);
    case _ =>
  }

  lemma RebindShared(s: State, step: Step)
    requires Inv(s) && step.Rebind? && Enabled(s, step) && Careful(s, step)
    ensures SharedInv(Apply(s, step))
  {
    hide OutputInv, MainInv;
  }

  lemma PublishShared(s: State)
    requires Inv(s) && Enabled(s, PublishAxis)
    ensures SharedInv(Apply(s, PublishAxis))
  {
    hide OutputInv, MainInv, AllFresh;
  }

  lemma PutBackShared(s: State)
    requires Inv(s) && Enabled(s, PutBackDevices)
    ensures SharedInv(Apply(s, PutBackDevices))
  {
    hide OutputInv, MainInv, PutBack;
    AllPutBack(s.remaps, s.input.saved, s.bindings);
    var back := Apply(s, PutBackDevices).remaps;
    forall j | 0 <= j < |back| ensures Fresh(back[j]) {
      assert Fresh(s.bindings[j].(value := s.remaps[j].value));
    }
  }

  lemma EngineShared(s: State, after: seq<Remap>)
    requires Inv(s) && Enabled(s, Engine(after))
    ensures SharedInv(Apply(s, Engine(after)))
  {
    hide OutputInv, MainInv, OnLoan, AllHiddenFrom, MayReturn;
    if s.input.Updating? {
      UpdateGivesClean(s, after);
      hide AllFresh, Fresh;
    }
  }

  lemma UpdateGivesClean(s: State, after: seq<Remap>)
    requires Inv(s) && s.input.Updating? && Updates(s.remaps, after)
    ensures OnLoan(after, s.input.saved, 0, s.bindings)
    ensures forall i :: i in s.input.offer ==> i < 3 && s.input.axes[i].Some? && !after[s.input.axes[i].value].value.fromMouse
    ensures forall j :: 0 <= j < |after| ==> Fresh(s.bindings[j].(value := after[j].value))
  {
    forall j: nat, slot: Slot | j < |after| ensures Kept(after, s.input.saved, 0, s.bindings, j, slot) {
      assert Resolves(s.remaps[j], after[j]) && Kept(s.remaps, s.input.saved, 0, s.bindings, j, slot);
    }
    var back := seq(|after|, j requires 0 <= j < |after| => s.bindings[j].(value := after[j].value));
    CleanUpdate(s.bindings, s.remaps, after, back, s.input.axes, s.input.offer);
    forall j | 0 <= j < |after| ensures Fresh(s.bindings[j].(value := after[j].value)) {
      assert Fresh(back[j]);
    }
  }

  lemma EngineKeepsInput(s: State, after: seq<Remap>)
    requires Inv(s) && Enabled(s, Engine(after))
    ensures InputInv(Apply(s, Engine(after)))
  {
    if s.input.Updating? {
      UpdateGivesClean(s, after);
      var t := Apply(s, Engine(after));
      hide OnLoan, AllHiddenFrom, MayReturn, AllFresh, OutputInv, MainInv, Fresh;
      forall i | i in s.input.offer ensures (i, after[s.input.axes[i].value].value) in t.given {
        assert (i, after[s.input.axes[i].value].value) in Given(s.input.axes, s.input.offer, after);
      }
    }
  }

  predicate OfMain(step: Step) {
    step.BeginFrame? || step.StoreVehicle? || step.StoreView? || step.CheckAircraft? || step.ReturnAxis? || step.Send?
  }

  lemma MainLeavesInput(s: State, step: Step)
    requires Inv(s) && Enabled(s, step) && OfMain(step)
    ensures InputInv(Apply(s, step)) && SameDevices(Apply(s, step).bindings, s.bindings)
  {
    var t := Apply(s, step);
    assert t.input == s.input && t.remaps == s.remaps && t.bindings == s.bindings && t.given == s.given;
    hide OnLoan, AllHiddenFrom, MayReturn, AllFresh, OutputInv, MainInv, Fresh;
  }

  lemma KeepsInput(s: State, step: Step)
    requires Inv(s) && Enabled(s, step)
    ensures InputInv(Apply(s, step))
    ensures step.Rebind? || SameDevices(Apply(s, step).bindings, s.bindings)
  {
    if OfMain(step) {
      MainLeavesInput(s, step);
    } else if step.Engine? {
      EngineKeepsInput(s, step.after);
      EngineKeepsDevices(s, step.after);
    } else if step == PutBackDevices {
      BackInPlace(s);
    } else if step == HideMouse {
      HidesInput(s);
    } else {
      PlainInput(s, step);
    }
  }

  lemma HidesInput(s: State)
    requires Inv(s) && Enabled(s, HideMouse)
    ensures InputInv(Apply(s, HideMouse)) && SameDevices(Apply(s, HideMouse).bindings, s.bindings)
  {
    hide Hide, OutputInv, MainInv, Fresh, AllFresh;
    HideSaves(s.remaps, s.input.axes, 3);
  }

  lemma EngineKeepsDevices(s: State, after: seq<Remap>)
    requires Inv(s) && Enabled(s, Engine(after))
    ensures SameDevices(Apply(s, Engine(after)).bindings, s.bindings)
  {
    hide OutputInv, MainInv, Fresh, AllFresh, Given, OnLoan, AllHiddenFrom, MayReturn;
  }

  lemma PlainInput(s: State, step: Step)
    requires Inv(s) && Enabled(s, step) && !OfMain(step) && !step.Engine? && step != PutBackDevices && step != HideMouse
    ensures InputInv(Apply(s, step)) && (step.Rebind? || SameDevices(Apply(s, step).bindings, s.bindings))
  {
    hide Hide, PutBack, OutputInv, MainInv, Fresh, Given, AllFresh, OnLoan, AllHiddenFrom, MayReturn;
  }

  lemma BackInPlace(s: State)
    requires Inv(s) && s.input.PuttingBack?
    ensures InRange(s.input.saved, |s.remaps|) && InputInv(Apply(s, PutBackDevices))
    ensures SameDevices(Apply(s, PutBackDevices).bindings, s.bindings)
  {
    hide PutBack, OutputInv, MainInv, Fresh, AllFresh;
    AllPutBack(s.remaps, s.input.saved, s.bindings);
  }

  lemma KeepsMain(s: State, step: Step)
    requires Inv(s) && Enabled(s, step)
    ensures MainInv(Apply(s, step))
  {
    hide OutputInv, Hide, OnLoan, AllHiddenFrom, MayReturn, AllFresh;
    GivenGrows(s, step);
  }

  lemma KeepsOutput(s: State, step: Step)
    requires Inv(s) && Enabled(s, step)
    ensures OutputInv(Apply(s, step))
  {
    hide Hide, InputInv, MainInv, OutputInv, DeliveryOk, SendingOk;
    var t := Apply(s, step);
    hide Apply;
    GivenGrows(s, step);
    OldOutput(s, t);
    NewOutput(s, step);
    OutputJoined(s, t);
  }

  lemma OutputJoined(s: State, t: State)
    requires forall k :: 0 <= k < |s.delivered| ==> DeliveryOk(t, s.delivered[k])
    requires forall k :: 0 <= k < |s.sent| ==> SendingOk(t, s.sent[k])
    requires OutputGrows(s, t)
    ensures OutputInv(t)
  {
    hide DeliveryOk, SendingOk;
    forall k | 0 <= k < |t.delivered| ensures DeliveryOk(t, t.delivered[k]) {
      assert k < |s.delivered| ==> t.delivered[k] == s.delivered[k];
    }
    forall k | 0 <= k < |t.sent| ensures SendingOk(t, t.sent[k]) {
      assert k < |s.sent| ==> t.sent[k] == s.sent[k];
    }
  }

  /** What has come out before. */
  lemma OldOutput(s: State, t: State)
    requires Inv(s) && s.given <= t.given && t.enabled == s.enabled
    ensures forall k :: 0 <= k < |s.delivered| ==> DeliveryOk(t, s.delivered[k])
    ensures forall k :: 0 <= k < |s.sent| ==> SendingOk(t, s.sent[k])
  {
    hide SharedInv, InputInv, MainInv, Sanitised, ShowsFreeLook;
    forall k | 0 <= k < |s.delivered| ensures DeliveryOk(t, s.delivered[k]) {
      assert DeliveryOk(s, s.delivered[k]);
    }
    forall k | 0 <= k < |s.sent| ensures SendingOk(t, s.sent[k]) {
      assert SendingOk(s, s.sent[k]);
    }
  }

  ghost predicate OutputGrows(s: State, t: State) {
    && (t.delivered == s.delivered || exists d :: t.delivered == s.delivered + [d] && DeliveryOk(t, d))
    && (t.sent == s.sent || exists x :: t.sent == s.sent + [x] && SendingOk(t, x))
  }

  /** What comes out with a step. */
  lemma NewOutput(s: State, step: Step)
    requires Inv(s) && Enabled(s, step)
    ensures OutputGrows(s, Apply(s, step))
  {
    hide Hide, PutBack, Given, InputInv, OutputInv, Sanitised, ShowsFreeLook, AllFresh, HandedBack, SetControl;
    var t := Apply(s, step);
    match step
    case StoreVehicle =>
      Unchanged(t.given, s.main.frame);
      NewDelivery(s, t);
    case CheckAircraft =>
      Unchanged(t.given, s.main.frame);
      NewDelivery(s, t);
    case ReturnAxis =>
      NewDelivery(s, t);
    case Send(action) =>
      assert t.sent != s.sent;
    case _ =>
      assert t.delivered == s.delivered && t.sent == s.sent;
  }

  lemma Unchanged(given: set<(nat, Reading)>, frame: PlayerFrame)
    ensures HandedBack(given, frame, frame)
  {
  }

  lemma NewDelivery(s: State, t: State)
    requires t.sent == s.sent
    requires t.delivered != s.delivered ==>
      t.delivered != [] && t.delivered == s.delivered + [t.delivered[|t.delivered| - 1]] && DeliveryOk(t, t.delivered[|t.delivered| - 1])
    ensures OutputGrows(s, t)
  {
  }

  lemma {:induction false} RunKeeps(s: State, steps: seq<Step>)
    requires Inv(s) && Legal(s, steps) && AllCareful(s, steps)
    ensures Inv(Run(s, steps)) && Run(s, steps).enabled == s.enabled
    decreases |steps|
  {
    if steps != [] {
      var step := steps[0];
      KeepsShared(s, step);
      KeepsInput(s, step);
      KeepsMain(s, step);
      KeepsOutput(s, step);
      GivenGrows(s, step);
      RunKeeps(Apply(s, step), steps[1..]);
    }
  }

  // ---- Over whole runs.

  /** In every interleaving: a frame outside an aircraft, or with the feature off, is not touched; in an
      aircraft only flight axes change, each to a value that the engine gave for it without the mouse. */
  lemma FramesStayClean(s: State, steps: seq<Step>, k: nat)
    requires Init(s) && Legal(s, steps) && AllCareful(s, steps) && k < |Run(s, steps).delivered|
    ensures var d := Run(s, steps).delivered[k];
      && (!d.flying || !s.enabled ==> d.after == d.before)
      && d.after.mask == d.before.mask
      && (forall c :: 3 <= c < 64 ==> d.after.controls[c] == d.before.controls[c])
      && forall i: nat :: i < 3 ==>
        d.after.controls[i] == d.before.controls[i]
        || (!d.after.controls[i].fromMouse && (i, d.after.controls[i]) in Run(s, steps).given)
  {
    InitInv(s);
    RunKeeps(s, steps);
    var t := Run(s, steps);
    assert DeliveryOk(t, t.delivered[k]);
  }

  /** The caller's action, except that in an aircraft it does not show that the player looks around. */
  ghost predicate ShowsNoFreeLook(enabled: bool, x: Sending) {
    && (enabled && x.flying ==> !ShowsFreeLook(x.passed))
    && (!enabled || !x.flying || !ShowsFreeLook(x.action) ==> x.passed == x.action)
    && (x.passed != x.action ==> x.passed.mouseLookX == 0 && x.passed.mouseLookY == 0)
    && x.passed.buttons0 | BUTTON_MOUSE_LOOK == x.action.buttons0 | BUTTON_MOUSE_LOOK
    && x.passed.(mouseLookX := 0, mouseLookY := 0, buttons0 := 0) == x.action.(mouseLookX := 0, mouseLookY := 0, buttons0 := 0)
  }

  lemma SanitisedShowsNothing(s: State, x: Sending)
    requires SendingOk(s, x)
    ensures ShowsNoFreeLook(s.enabled, x)
  {
    ClearBit(x.action.buttons0);
  }

  lemma ClearBit(b: bv32)
    ensures (b & !BUTTON_MOUSE_LOOK) & BUTTON_MOUSE_LOOK == 0
    ensures (b & !BUTTON_MOUSE_LOOK) | BUTTON_MOUSE_LOOK == b | BUTTON_MOUSE_LOOK
  {
  }

  /** In every interleaving, every action in the ring is of that kind. */
  lemma RingNeverShowsFreeLook(s: State, steps: seq<Step>, k: nat)
    requires Init(s) && Legal(s, steps) && AllCareful(s, steps) && k < |Run(s, steps).sent|
    ensures ShowsNoFreeLook(s.enabled, Run(s, steps).sent[k])
  {
    hide ShowsNoFreeLook, ShowsFreeLook, Sanitised;
    InitInv(s);
    RunKeeps(s, steps);
    var t := Run(s, steps);
    assert SendingOk(t, t.sent[k]);
    SanitisedShowsNothing(t, t.sent[k]);
  }

  /** However the main thread comes in between, an update gives every device back: between updates the
      bindings are the ones the player chose. */
  lemma DevicesComeBack(s: State, steps: seq<Step>)
    requires Inv(s) && s.input == InputIdle && Legal(s, steps) && AllCareful(s, steps)
    requires NoRebind(steps)
    requires Run(s, steps).input == InputIdle
    ensures SameDevices(Run(s, steps).remaps, s.remaps)
  {
    RunKeeps(s, steps);
    BindingsStay(s, steps);
  }

  lemma {:induction false} BindingsStay(s: State, steps: seq<Step>)
    requires Inv(s) && Legal(s, steps) && AllCareful(s, steps)
    requires NoRebind(steps)
    ensures SameDevices(Run(s, steps).bindings, s.bindings)
    decreases |steps|
  {
    if steps != [] {
      var step := steps[0];
      KeepsShared(s, step);
      KeepsInput(s, step);
      KeepsMain(s, step);
      KeepsOutput(s, step);
      var t := Apply(s, step);
      BindingsStay(t, steps[1..]);
    }
  }

  // ---- The care that a new binding needs is exactly that much.

  lemma {:induction false} RunCat(s: State, a: seq<Step>, b: seq<Step>)
    requires Legal(s, a) && Legal(Run(s, a), b)
    ensures Legal(s, a + b) && Run(s, a + b) == Run(Run(s, a), b)
    decreases |a|
  {
    if a == [] {
      assert a + b == b;
    } else {
      RunCat(Apply(s, a[0]), a[1..], b);
      assert (a + b)[0] == a[0] && (a + b)[1..] == a[1..] + b;
    }
  }

  lemma One(s: State, step: Step)
    requires |s.flightAxis| == 3 && Enabled(s, step) && |Apply(s, step).flightAxis| == 3
    ensures Legal(s, [step]) && Run(s, [step]) == Apply(s, step)
  {
    assert [step][1..] == [];
  }

  /** A state between updates and between frames, in an aircraft. */
  ghost predicate Quiet(s: State) {
    && |s.flightAxis| == 3 && s.enabled && s.localVehicle && s.inAircraft
    && s.input == InputIdle && s.main == MainIdle
  }

  /** A run of some steps to a state. */
  ghost predicate Reaches(s: State, steps: seq<Step>, t: State) {
    Legal(s, steps) && Run(s, steps) == t && NoRebind(steps)
  }

  lemma Then(s: State, steps: seq<Step>, t: State, step: Step)
    requires Reaches(s, steps, t) && |t.flightAxis| == 3 && Enabled(t, step) && |Apply(t, step).flightAxis| == 3 && !step.Rebind?
    ensures Reaches(s, steps + [step], Apply(t, step))
  {
    One(t, step);
    RunCat(s, steps, [step]);
  }

  lemma NoSteps(s: State)
    requires |s.flightAxis| == 3
    ensures Reaches(s, [], s)
  {
  }

  function AllZeroBut(remaps: seq<Remap>, j: nat): seq<Remap> {
    seq(|remaps|, i requires 0 <= i < |remaps| => if i == j then remaps[i] else remaps[i].(value := ZERO))
  }

  /** The input thread is about to publish the first axis, which has a reading of the mouse. */
  ghost predicate Offering(s: State, t: State, j: nat) {
    && |t.flightAxis| == 3 && t.enabled && t.localVehicle && t.inAircraft && t.main == MainIdle && t.delivered == s.delivered
    && t.input == Publishing([Some(j), None, None], {0}, 0) && j < |t.remaps| && t.remaps[j].value.fromMouse
  }

  /** An update with free look held, in which the engine leaves a stale value as it is. */
  lemma StaleUpdate(s: State, j: nat) returns (steps: seq<Step>, t: State)
    requires Quiet(s) && j < |s.remaps| && !Fresh(s.remaps[j])
    ensures Reaches(s, steps, t) && Quiet(t) && t.delivered == s.delivered
    ensures t.restorable == {0} && t.flightAxis[0].fromMouse
  {
    hide Reaches, Fresh;
    steps, t := StaleOffer(s, j);
    Then(s, steps, t, PublishAxis);
    steps, t := steps + [PublishAxis], Apply(t, PublishAxis);
    Then(s, steps, t, PublishAxis);
    steps, t := steps + [PublishAxis], Apply(t, PublishAxis);
    Then(s, steps, t, PublishAxis);
    steps, t := steps + [PublishAxis], Apply(t, PublishAxis);
    Then(s, steps, t, PublishMask);
    steps, t := steps + [PublishMask], Apply(t, PublishMask);
  }

  lemma StaleOffer(s: State, j: nat) returns (steps: seq<Step>, t: State)
    requires Quiet(s) && j < |s.remaps| && !Fresh(s.remaps[j])
    ensures Reaches(s, steps, t) && Offering(s, t, j)
  {
    hide Reaches;
    NoSteps(s);
    var axes: Axes := [Some(j), None, None];
    steps, t := [], s;
    var begin := BeginUpdate(Some(true), axes);
    Then(s, steps, t, begin);
    steps, t := steps + [begin], Apply(t, begin);
    Then(s, steps, t, Decide);
    steps, t := steps + [Decide], Apply(t, Decide);
    StaleHide(s.remaps, axes, j);
    Then(s, steps, t, HideMouse);
    steps, t := steps + [HideMouse], Apply(t, HideMouse);
    var after := AllZeroBut(t.remaps, j);
    Then(s, steps, t, Engine(after));
    steps, t := steps + [Engine(after)], Apply(t, Engine(after));
    Then(s, steps, t, PutBackDevices);
    steps, t := steps + [PutBackDevices], Apply(t, PutBackDevices);
  }

  lemma StaleHide(remaps: seq<Remap>, axes: Axes, j: nat)
    requires j < |remaps| && axes == [Some(j), None, None] && !remaps[j].HasMouse()
    ensures Hide(remaps, axes, 3) == Hidden(remaps, [], {0})
  {
    assert Hide(remaps, axes, 0) == Hidden(remaps, [], {});
    assert Hide(remaps, axes, 1) == Hidden(remaps, [], {0});
    assert Hide(remaps, axes, 2) == Hidden(remaps, [], {0});
  }

  /** The next frame then has the mouse on the stick. */
  lemma StaleFrame(s: State) returns (steps: seq<Step>, t: State)
    requires Quiet(s) && s.restorable == {0} && s.flightAxis[0].fromMouse
    ensures Reaches(s, steps, t) && |t.delivered| == |s.delivered| + 1
    ensures t.delivered[|s.delivered|].before == Frame(0, seq(64, _ => ZERO))
    ensures t.delivered[|s.delivered|].after.controls[YAW].fromMouse
  {
    hide Reaches;
    NoSteps(s);
    var frame: PlayerFrame := Frame(0, seq(64, _ => ZERO));
    steps, t := [], s;
    Then(s, steps, t, BeginFrame(frame, true));
    steps, t := steps + [BeginFrame(frame, true)], Apply(t, BeginFrame(frame, true));
    Then(s, steps, t, StoreVehicle);
    steps, t := steps + [StoreVehicle], Apply(t, StoreVehicle);
    Then(s, steps, t, StoreView);
    steps, t := steps + [StoreView], Apply(t, StoreView);
    Then(s, steps, t, CheckAircraft);
    steps, t := steps + [CheckAircraft], Apply(t, CheckAircraft);
    Then(s, steps, t, ReturnAxis);
    steps, t := steps + [ReturnAxis], Apply(t, ReturnAxis);
    assert t.main.now.controls[YAW] == s.flightAxis[0];
    Then(s, steps, t, ReturnAxis);
    steps, t := steps + [ReturnAxis], Apply(t, ReturnAxis);
    Then(s, steps, t, ReturnAxis);
    steps, t := steps + [ReturnAxis], Apply(t, ReturnAxis);
    Then(s, steps, t, ReturnAxis);
    steps, t := steps + [ReturnAxis], Apply(t, ReturnAxis);
  }

  /** A frame that came out after s with the mouse on the stick, though nothing was on it before. */
  ghost predicate Spoils(s: State, steps: seq<Step>) {
    Legal(s, steps) && NoRebind(steps) &&
    exists k :: |s.delivered| <= k < |Run(s, steps).delivered| && Spoilt(Run(s, steps).delivered[k])
  }

  ghost predicate Spoilt(d: Delivery) {
    exists i: nat :: i < 3 && d.after.controls[i] != d.before.controls[i] && d.after.controls[i].fromMouse
  }

  /** A state like those that the invariant describes, but with any bindings. */
  ghost predicate QuietBut(s: State) {
    && Quiet(s) && OutputInv(s) && s.remaps == s.bindings
    && (forall i: nat :: i < 3 ==> (i, s.flightAxis[i]) in s.given)
    && (forall g :: g in s.given ==> !g.1.fromMouse)
  }

  /** With the bindings as they are, the mouse can get on the stick if and only if some axis has a stale
      mouse reading that no device overwrites. */
  lemma CareIsNeeded(s: State)
    requires QuietBut(s)
    ensures (exists steps :: Spoils(s, steps)) <==> !AllFresh(s.remaps)
  {
    if AllFresh(s.remaps) {
      forall steps ensures !Spoils(s, steps) {
        if Legal(s, steps) && NoRebind(steps) {
          NoSpoil(s, steps);
        }
      }
    } else {
      var j :| 0 <= j < |s.remaps| && !Fresh(s.remaps[j]);
      var a, t := StaleUpdate(s, j);
      var b, u := StaleFrame(t);
      RunCat(s, a, b);
      var d := Run(s, a + b).delivered[|s.delivered|];
      assert d.after.controls[YAW] != d.before.controls[YAW];
      assert Spoilt(d);
      assert Spoils(s, a + b);
    }
  }

  lemma NoSpoil(s: State, steps: seq<Step>)
    requires QuietBut(s) && AllFresh(s.remaps) && Legal(s, steps) && NoRebind(steps)
    ensures !Spoils(s, steps)
  {
    NeedsNoCare(s, steps);
    RunKeeps(s, steps);
    var t := Run(s, steps);
    forall k | |s.delivered| <= k < |t.delivered| ensures !Spoilt(t.delivered[k]) {
      assert DeliveryOk(t, t.delivered[k]);
    }
  }

  lemma {:induction false} NeedsNoCare(s: State, steps: seq<Step>)
    requires Legal(s, steps) && NoRebind(steps)
    ensures AllCareful(s, steps)
    decreases |steps|
  {
    if steps != [] {
      NeedsNoCare(Apply(s, steps[0]), steps[1..]);
    }
  }
}
