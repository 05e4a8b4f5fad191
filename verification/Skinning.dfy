/** Moving skinned vertices from bone space to mesh space while a vertex buffer is built, and the bone
    constants to match (src/bf/skinning.cpp:78-97, 118-142, 248-383). */
module Skinning {
  import opened Wrappers
  import opened RigidMotion
  import opened BindFit

  /** A vertex with two influences; a code is the number of registers from c9 to the bone's matrix. */
  datatype Vertex = Vertex(off0: Vec, off1: Vec, w0: real, w1: real, code0: nat, code1: nat, normal: Vec)

  const STRIDE: nat := 0x40

  /** The pointer to one of a vertex's offsets. */
  datatype Place = Place(vertex: nat, second: bool)

  function Offset(v: Vertex, second: bool): Vec {
    if second then v.off1 else v.off0
  }

  function WithOffset(v: Vertex, second: bool, o: Vec): Vertex {
    if second then v.(off1 := o) else v.(off0 := o)
  }

  function CodeOf(v: Vertex, second: bool): nat {
    if second then v.code1 else v.code0
  }

  /** The influences that the build rebases: a first one with a bone, a second one that counts as well. */
  predicate Used(v: Vertex, second: bool) {
    CodeOf(v, second) >= 3 && (second ==> v.w1 > 0.0)
  }

  predicate Single(v: Vertex) {
    v.code1 < 3 || v.w1 <= 0.0
  }

  function SlotOf(code: nat): nat
    requires code >= 3
  {
    (code - 3) / 3
  }

  // ---- The keys.

  function PoseKey(mesh: nat, lod: int, slot: nat): nat {
    mesh * 0x10000 + lod % 0x100 * 0x100 + slot % 0x100
  }

  /** A key names the mesh, and the level and the slot modulo 256. */
  lemma KeyNames(mesh: nat, lod: int, slot: nat, mesh': nat, lod': int, slot': nat)
    ensures PoseKey(mesh, lod, slot) == PoseKey(mesh', lod', slot') <==>
      mesh == mesh' && lod % 0x100 == lod' % 0x100 && slot % 0x100 == slot' % 0x100
  {
  }

  /** The keys of one mesh and level are 256 in a row. */
  predicate InGroup(key: nat, group: nat) {
    group <= key < group + 0x100
  }

  lemma GroupKeys(mesh: nat, lod: int, slot: nat, mesh': nat, lod': int)
    ensures InGroup(PoseKey(mesh, lod, slot), PoseKey(mesh', lod', 0)) <==> mesh == mesh' && lod % 0x100 == lod' % 0x100
    ensures slot < 0x100 ==> PoseKey(mesh, lod, slot) == PoseKey(mesh, lod, 0) + slot
    ensures PoseKey(mesh, lod, 0) % 0x100 == 0
  {
  }

  // ---- What the builds keep.

  datatype Fit = Fit(sums: SlotFit, pending: seq<Place>)

  /** The state, with what the game wrote, which build each vertex is from, the places that were looked at,
      and the equations of each slot. */
  datatype Skin = Skin(
    bindPoses: map<nat, Matrix>,
    fits: map<nat, Fit>,
    group: nat,
    last: nat,
    vertices: map<nat, Vertex>,
    written: map<nat, Vertex>,
    owner: map<nat, nat>,
    seen: set<Place>,
    samples: map<nat, seq<Sample>>)

  function KeyOf(s: Skin, p: Place): nat
    requires p.vertex in s.owner && p.vertex in s.written && Used(s.written[p.vertex], p.second)
  {
    s.owner[p.vertex] + SlotOf(CodeOf(s.written[p.vertex], p.second))
  }

  ghost predicate IsUsed(s: Skin, p: Place) {
    p.vertex in s.owner && p.vertex in s.written && Used(s.written[p.vertex], p.second)
  }

  /** An offset is rebased once if its slot has a bind pose, and otherwise it is as the game wrote it. */
  ghost predicate Placed(s: Skin, p: Place)
    requires p.vertex in s.vertices && p.vertex in s.written
  {
    Offset(s.vertices[p.vertex], p.second) ==
      var o := Offset(s.written[p.vertex], p.second);
      if p in s.seen && IsUsed(s, p) && KeyOf(s, p) in s.bindPoses then Apply(o, s.bindPoses[KeyOf(s, p)]) else o
  }

  ghost predicate Owned(s: Skin) {
    forall a :: a in s.owner ==>
      && a in s.vertices && a in s.written && s.owner[a] % 0x100 == 0
      && s.vertices[a].(off0 := s.written[a].off0, off1 := s.written[a].off1, normal := s.written[a].normal) == s.written[a]
      && s.written[a].code0 < 0x100 && s.written[a].code1 < 0x100
      && (s.owner[a] == s.group ==> a <= s.last)
  }

  ghost predicate AllPlaced(s: Skin)
    requires Owned(s)
  {
    forall p: Place :: p.vertex in s.owner ==> Placed(s, p)
  }

  /** Waiting for its slot in the current build. */
  ghost predicate Awaits(s: Skin, p: Place, key: nat) {
    p in s.seen && IsUsed(s, p) && s.owner[p.vertex] == s.group && KeyOf(s, p) == key
  }

  ghost predicate NoDoubles(pending: seq<Place>) {
    forall i, j :: 0 <= i < j < |pending| ==> pending[i] != pending[j]
  }

  ghost predicate FitOk(s: Skin, key: nat)
    requires key in s.fits
  {
    var fit := s.fits[key];
    && InGroup(key, s.group)
    && (fit.sums.solved <==> key in s.bindPoses)
    && key in s.samples && fit.sums.(solved := false) == Gathered(s.samples[key])
    && NoDoubles(fit.pending)
    && (forall p: Place :: p in fit.pending <==> !fit.sums.solved && Awaits(s, p, key))
    && (key in s.bindPoses ==> forall truth :: Rigid(truth) && Obeys(s.samples[key], truth) ==> s.bindPoses[key] == truth)
  }

  ghost predicate FitsOk(s: Skin) {
    && (forall key :: key in s.fits ==> FitOk(s, key))
    && (forall p: Place :: p in s.seen && IsUsed(s, p) && s.owner[p.vertex] == s.group ==> KeyOf(s, p) in s.fits)
  }

  ghost predicate PosesOk(s: Skin) {
    && s.group % 0x100 == 0
    && forall key :: key in s.bindPoses ==> Rigid(s.bindPoses[key]) && (InGroup(key, s.group) ==> key in s.fits)
  }

  ghost predicate Inv(s: Skin) {
    Owned(s) && AllPlaced(s) && FitsOk(s) && PosesOk(s)
  }

  /** Every place of the vertices at hand was looked at. */
  ghost predicate AllSeen(s: Skin) {
    forall p: Place :: p.vertex in s.owner ==> p in s.seen
  }

  /** A slot has a bind pose exactly if its samples give one, and then it is that one. */
  ghost predicate Settled(poses: map<nat, Matrix>, samples: map<nat, seq<Sample>>, key: nat, sqrt: real -> real) {
    key in samples ==>
      var fitted := Fitted(Gathered(samples[key]), sqrt);
      (key in poses <==> fitted.Some?) && (key in poses ==> poses[key] == fitted.value)
  }

  ghost predicate AllSettled(poses: map<nat, Matrix>, samples: map<nat, seq<Sample>>, keys: set<nat>, sqrt: real -> real) {
    samples.Keys == keys && forall key :: key in samples ==> Settled(poses, samples, key, sqrt)
  }

  /** So clear samples give the pose: enough of them, in places that determine a transform, and all moved by
      one rigid motion. */
  lemma ClearSamplesSettle(s: Skin, key: nat, sqrt: real -> real, truth: Matrix)
    requires AllSettled(s.bindPoses, s.samples, s.fits.Keys, sqrt) && SquareRoot(sqrt) && key in s.samples
    requires |s.samples[key]| >= ENOUGH && Reduce(System(Gathered(s.samples[key])), 4).Some?
    requires Rigid(truth) && Obeys(s.samples[key], truth)
    ensures key in s.bindPoses && s.bindPoses[key] == truth
  {
    hide Gathered, Reduce, Fitted, Rigid, Obeys, SquareRoot, System;
    FittedTruth(s.samples[key], truth, sqrt);
    assert Settled(s.bindPoses, s.samples, key, sqrt);
  }

  function SamplesOf(samples: map<nat, seq<Sample>>, key: nat): seq<Sample> {
    if key in samples then samples[key] else []
  }

  /** A vertex that one bone alone moves, with its place in the mesh, says something about the bone. */
  predicate Tells(v: Vertex, source: Option<Vec>) {
    Single(v) && v.code0 >= 3 && source.Some?
  }

  /** What the slot learns from a vertex; a slot with a pose learns nothing more. */
  function Lesson(v: Vertex, source: Option<Vec>, group: nat, poses: map<nat, Matrix>, key: nat): seq<Sample> {
    if Tells(v, source) && key == group + SlotOf(v.code0) && key !in poses then [Sample(v.off0, source.value)] else []
  }

  ghost predicate Learned(now: map<nat, seq<Sample>>, was: map<nat, seq<Sample>>, v: Vertex, source: Option<Vec>, group: nat,
                          poses: map<nat, Matrix>) {
    forall key :: SamplesOf(now, key) == SamplesOf(was, key) + Lesson(v, source, group, poses, key)
  }

  ghost predicate NothingLearned(now: map<nat, seq<Sample>>, was: map<nat, seq<Sample>>) {
    forall key :: SamplesOf(now, key) == SamplesOf(was, key)
  }

  lemma Unchanged(samples: map<nat, seq<Sample>>)
    ensures NothingLearned(samples, samples)
  {
  }

  lemma NoLesson(now: map<nat, seq<Sample>>, was: map<nat, seq<Sample>>, v: Vertex, source: Option<Vec>, group: nat, poses: map<nat, Matrix>)
    requires NothingLearned(now, was) && (Tells(v, source) ==> group + SlotOf(v.code0) in poses)
    ensures Learned(now, was, v, source, group, poses)
  {
    hide SlotOf;
  }

  lemma OneLesson(now: map<nat, seq<Sample>>, between: map<nat, seq<Sample>>, was: map<nat, seq<Sample>>, v: Vertex, source: Option<Vec>,
                  group: nat, poses: map<nat, Matrix>, key: nat)
    requires NothingLearned(between, was) && Tells(v, source) && key == group + SlotOf(v.code0) && key !in poses && key in between
    requires now == between[key := between[key] + [Sample(v.off0, source.value)]]
    ensures Learned(now, was, v, source, group, poses)
  {
    hide SlotOf;
  }

  lemma NothingAfter(now: map<nat, seq<Sample>>, between: map<nat, seq<Sample>>, was: map<nat, seq<Sample>>, v: Vertex, source: Option<Vec>,
                     group: nat, poses: map<nat, Matrix>)
    requires Learned(between, was, v, source, group, poses) && NothingLearned(now, between)
    ensures Learned(now, was, v, source, group, poses)
  {
    hide Lesson, SamplesOf;
    forall key ensures SamplesOf(now, key) == SamplesOf(was, key) + Lesson(v, source, group, poses, key) {
      assert SamplesOf(now, key) == SamplesOf(between, key);
    }
  }

  lemma EnterSettles(poses: map<nat, Matrix>, samples: map<nat, seq<Sample>>, keys: set<nat>, sqrt: real -> real, key: nat)
    requires AllSettled(poses, samples, keys, sqrt) && key !in keys && key !in poses
    ensures AllSettled(poses, samples[key := []], keys + {key}, sqrt) && NothingLearned(samples[key := []], samples)
  {
    hide Reduce, Tidied, System, Meets;
    var now := samples[key := []];
    forall k | k in now ensures Settled(poses, now, k, sqrt) {
      assert k != key ==> Settled(poses, samples, k, sqrt);
    }
  }

  /** One slot has one more sample, and the pose that they now give, if they do. */
  lemma MeasureSettles(poses: map<nat, Matrix>, poses': map<nat, Matrix>, samples: map<nat, seq<Sample>>, samples': map<nat, seq<Sample>>,
                       keys: set<nat>, sqrt: real -> real, key: nat)
    requires AllSettled(poses, samples, keys, sqrt) && key in samples && key in samples' && samples' == samples[key := samples'[key]]
    requires forall k :: k != key ==> (k in poses' <==> k in poses) && (k in poses ==> poses'[k] == poses[k])
    requires Settled(poses', samples', key, sqrt)
    ensures AllSettled(poses', samples', keys, sqrt)
  {
    hide Gathered, Fitted;
    forall k | k in samples' ensures Settled(poses', samples', k, sqrt) {
      assert k != key ==> Settled(poses, samples, k, sqrt);
    }
  }

  lemma TooFewSettle(poses: map<nat, Matrix>, samples: map<nat, seq<Sample>>, key: nat, sqrt: real -> real)
    requires key in samples && |samples[key]| < ENOUGH && key !in poses
    ensures Settled(poses, samples, key, sqrt)
  {
    hide Reduce, Tidied, System, Meets, Gathered;
    KeptAreFirst(samples[key]);
  }

  /** A slot's equations depend on what awaits it. */
  lemma FitAlike(s: Skin, t: Skin, key: nat)
    requires key in s.fits && key in t.fits && t.fits[key] == s.fits[key] && FitOk(s, key) && t.group == s.group
    requires t.samples == s.samples
    requires (key in s.bindPoses <==> key in t.bindPoses) && (key in s.bindPoses ==> t.bindPoses[key] == s.bindPoses[key])
    requires forall p: Place :: Awaits(t, p, key) <==> Awaits(s, p, key)
    ensures FitOk(t, key)
  {
    hide Awaits, NoDoubles, Gathered, Rigid, Obeys, InGroup;
  }

  // ---- A build begins.

  function Without(poses: map<nat, Matrix>, group: nat): map<nat, Matrix> {
    map key | key in poses && !InGroup(key, group) :: poses[key]
  }

  function Discarded(owner: map<nat, nat>, group: nat): map<nat, nat> {
    map a | a in owner && owner[a] != group :: owner[a]
  }

  function Begun(s: Skin, group: nat): Skin {
    s.(bindPoses := Without(s.bindPoses, group), fits := map[], group := group, last := 0,
       owner := Discarded(s.owner, group), samples := map[])
  }

  lemma BeginKeeps(s: Skin, group: nat)
    requires Inv(s) && group % 0x100 == 0
    ensures Inv(Begun(s, group))
    ensures AllSeen(s) ==> AllSeen(Begun(s, group))
  {
    var t := Begun(s, group);
    forall p: Place | p.vertex in t.owner ensures Placed(t, p) {
      assert Placed(s, p);
      if IsUsed(s, p) {
        OtherGroup(s, p, group);
      }
    }
  }

  lemma OtherGroup(s: Skin, p: Place, group: nat)
    requires Owned(s) && IsUsed(s, p) && group % 0x100 == 0 && s.owner[p.vertex] != group
    ensures !InGroup(KeyOf(s, p), group)
  {
  }

  // ---- The game writes a vertex.

  function Written(s: Skin, a: nat, v: Vertex): Skin {
    s.(vertices := s.vertices[a := v], written := s.written[a := v], owner := s.owner[a := s.group], last := a,
       seen := s.seen - {Place(a, false), Place(a, true)})
  }

  lemma WriteKeeps(s: Skin, a: nat, v: Vertex)
    requires Inv(s) && (a in s.owner ==> s.owner[a] != s.group) && a >= s.last && v.code0 < 0x100 && v.code1 < 0x100
    ensures Inv(Written(s, a, v))
  {
    hide FitOk, Apply, InGroup;
    var t := Written(s, a, v);
    forall p: Place | p.vertex in t.owner ensures Placed(t, p) {
      if p.vertex != a {
        assert Placed(s, p);
      }
    }
    forall key | key in t.fits ensures FitOk(t, key) {
      assert FitOk(s, key);
      forall p: Place ensures Awaits(t, p, key) <==> Awaits(s, p, key) {
      }
      FitAlike(s, t, key);
    }
  }

  // ---- One influence of the vertex just written.

  ghost predicate Fresh(s: Skin, p: Place) {
    p !in s.seen && p.vertex in s.owner && s.owner[p.vertex] == s.group
  }

  function Seen(s: Skin, p: Place): Skin {
    s.(seen := s.seen + {p})
  }

  lemma SkipKeeps(s: Skin, p: Place)
    requires Inv(s) && Fresh(s, p) && !IsUsed(s, p)
    ensures Inv(Seen(s, p))
  {
    hide FitOk, Apply, InGroup;
    var t := Seen(s, p);
    forall q: Place | q.vertex in t.owner ensures Placed(t, q) {
      assert Placed(s, q);
    }
    forall key | key in t.fits ensures FitOk(t, key) {
      assert FitOk(s, key);
      forall q: Place ensures Awaits(t, q, key) <==> Awaits(s, q, key) {
      }
      FitAlike(s, t, key);
    }
  }

  function Rebased(vertices: map<nat, Vertex>, p: Place, bind: Matrix): (r: map<nat, Vertex>)
    requires p.vertex in vertices
    ensures r.Keys == vertices.Keys
  {
    var v := vertices[p.vertex];
    vertices[p.vertex := WithOffset(v, p.second, Apply(Offset(v, p.second), bind))]
  }

  lemma RebaseKeeps(s: Skin, p: Place)
    requires Inv(s) && Fresh(s, p) && IsUsed(s, p) && KeyOf(s, p) in s.bindPoses
    ensures Inv(Seen(s.(vertices := Rebased(s.vertices, p, s.bindPoses[KeyOf(s, p)])), p))
  {
    hide Apply, Rigid, Obeys, Gathered;
    var t := Seen(s.(vertices := Rebased(s.vertices, p, s.bindPoses[KeyOf(s, p)])), p);
    forall q: Place | q.vertex in t.owner ensures Placed(t, q) {
      assert Placed(s, q);
    }
    InOwnGroup(s, p);
    forall key | key in t.fits ensures FitOk(t, key) {
      assert FitOk(s, key);
      forall q: Place ensures Awaits(t, q, key) <==> Awaits(s, q, key) || (q == p && key == KeyOf(s, p)) {
      }
    }
  }

  lemma InOwnGroup(s: Skin, p: Place)
    requires Inv(s) && IsUsed(s, p) && s.owner[p.vertex] == s.group
    ensures InGroup(KeyOf(s, p), s.group)
  {
  }

  const NOTHING: Fit := Fit(EMPTY, [])

  function Entered(s: Skin, key: nat): Skin {
    if key in s.fits then s else s.(fits := s.fits[key := NOTHING], samples := s.samples[key := []])
  }

  lemma EnterKeeps(s: Skin, p: Place)
    requires Inv(s) && Fresh(s, p) && IsUsed(s, p)
    ensures Inv(Entered(s, KeyOf(s, p)))
  {
    hide Placed, FitOk, Apply, Rigid, Obeys, SlotOf;
    var key0 := KeyOf(s, p);
    InOwnGroup(s, p);
    if key0 !in s.fits {
      var t := Entered(s, key0);
      forall q: Place | q.vertex in t.owner ensures Placed(t, q) {
        assert Placed(s, q);
        PlacedAlike(s, t, q);
      }
      forall key | key in t.fits ensures FitOk(t, key) {
        if key != key0 {
          assert FitOk(s, key);
        }
        EnteredFit(s, key0, key);
      }
    }
  }

  lemma EnteredFit(s: Skin, key0: nat, key: nat)
    requires FitsOk(s) && key0 !in s.fits && (key == key0 || (key in s.fits && FitOk(s, key)))
    requires InGroup(key0, s.group) && key0 !in s.bindPoses
    ensures FitOk(Entered(s, key0), key)
  {
    hide Apply, Rigid, Obeys, InGroup, SlotOf;
    var t := Entered(s, key0);
    assert Gathered([]) == EMPTY;
    forall q: Place ensures Awaits(t, q, key) <==> Awaits(s, q, key) {
    }
  }

  function Queued(s: Skin, p: Place, key: nat): Skin
    requires key in s.fits
  {
    var fit := s.fits[key];
    Seen(s.(fits := s.fits[key := fit.(pending := fit.pending + [p])]), p)
  }

  lemma QueueKeeps(s: Skin, p: Place)
    requires Inv(s) && Fresh(s, p) && IsUsed(s, p) && KeyOf(s, p) in s.fits && !s.fits[KeyOf(s, p)].sums.solved
    ensures Inv(Queued(s, p, KeyOf(s, p)))
  {
    hide Apply, Rigid, Obeys, Gathered, WithEquation;
    var key0 := KeyOf(s, p);
    var t := Queued(s, p, key0);
    assert FitOk(s, key0);
    forall q: Place | q.vertex in t.owner ensures Placed(t, q) {
      assert Placed(s, q);
    }
    forall key | key in t.fits ensures FitOk(t, key) {
      assert FitOk(s, key);
      forall q: Place ensures Awaits(t, q, key) <==> Awaits(s, q, key) || (q == p && key == key0) {
      }
      if key == key0 {
        assert p !in s.fits[key].pending;
      }
    }
  }

  function Measured(s: Skin, key: nat, sample: Sample): Skin
    requires key in s.fits && key in s.samples && Shaped(s.fits[key].sums)
  {
    var fit := s.fits[key];
    s.(fits := s.fits[key := fit.(sums := WithEquation(fit.sums, sample))], samples := s.samples[key := s.samples[key] + [sample]])
  }

  lemma MeasureKeeps(s: Skin, key0: nat, sample: Sample)
    requires Inv(s) && key0 in s.fits && key0 in s.samples && Shaped(s.fits[key0].sums) && !s.fits[key0].sums.solved
    ensures Inv(Measured(s, key0, sample))
  {
    hide Placed, FitOk, Apply, Rigid, Obeys, InGroup, Gathered, WithEquation;
    var t := Measured(s, key0, sample);
    forall q: Place | q.vertex in t.owner ensures Placed(t, q) {
      assert Placed(s, q);
      PlacedAlike(s, t, q);
    }
    forall key | key in t.fits ensures FitOk(t, key) {
      MeasuredFit(s, key0, sample, key);
    }
  }

  /** A place depends on the vertices and the poses. */
  lemma PlacedAlike(s: Skin, t: Skin, q: Place)
    requires q.vertex in s.vertices && q.vertex in s.written && Placed(s, q)
    requires t.(fits := s.fits, samples := s.samples) == s
    ensures Placed(t, q)
  {
    hide Apply;
  }

  lemma MeasuredFit(s: Skin, key0: nat, sample: Sample, key: nat)
    requires key0 in s.fits && key0 in s.samples && Shaped(s.fits[key0].sums) && !s.fits[key0].sums.solved
    requires key in s.fits && FitOk(s, key0) && FitOk(s, key)
    ensures FitOk(Measured(s, key0, sample), key)
  {
    hide Apply, Rigid, Obeys, InGroup, NoDoubles, Gathered, WithEquation, Used, SlotOf;
    var t := Measured(s, key0, sample);
    forall q: Place ensures Awaits(t, q, key) <==> Awaits(s, q, key) {
    }
    if key == key0 {
      GatheredMore(s.samples[key0], sample);
      UnsolvedEquation(s.fits[key0].sums, sample);
    }
  }

  lemma GatheredMore(samples: seq<Sample>, sample: Sample)
    ensures Gathered(samples + [sample]) == WithEquation(Gathered(samples), sample)
  {
    hide WithEquation;
    assert (samples + [sample])[..|samples|] == samples;
  }

  lemma UnsolvedEquation(fit: SlotFit, sample: Sample)
    requires Shaped(fit)
    ensures WithEquation(fit, sample).solved == fit.solved
    ensures WithEquation(fit, sample).(solved := false) == WithEquation(fit.(solved := false), sample)
  {
  }

  // ---- A slot is solved.

  function AllRebased(vertices: map<nat, Vertex>, pending: seq<Place>, bind: Matrix, n: nat): (r: map<nat, Vertex>)
    requires n <= |pending| && forall i :: 0 <= i < |pending| ==> pending[i].vertex in vertices
    ensures r.Keys == vertices.Keys
  {
    if n == 0 then vertices else Rebased(AllRebased(vertices, pending, bind, n - 1), pending[n - 1], bind)
  }

  /** Each pending offset once, and nothing else. */
  lemma {:induction false} EachOnce(vertices: map<nat, Vertex>, pending: seq<Place>, bind: Matrix, n: nat, p: Place)
    requires n <= |pending| && forall i :: 0 <= i < |pending| ==> pending[i].vertex in vertices
    requires NoDoubles(pending) && p.vertex in vertices
    ensures var r := AllRebased(vertices, pending, bind, n);
      && Offset(r[p.vertex], p.second) ==
        (var o := Offset(vertices[p.vertex], p.second); if p in pending[..n] then Apply(o, bind) else o)
      && r[p.vertex].(off0 := vertices[p.vertex].off0, off1 := vertices[p.vertex].off1) == vertices[p.vertex]
  {
    if n > 0 {
      EachOnce(vertices, pending, bind, n - 1, p);
      assert pending[..n] == pending[..n - 1] + [pending[n - 1]];
      assert p == pending[n - 1] ==> p !in pending[..n - 1];
    }
  }

  function Solved(s: Skin, key: nat, bind: Matrix): Skin
    requires key in s.fits && forall i :: 0 <= i < |s.fits[key].pending| ==> s.fits[key].pending[i].vertex in s.vertices
  {
    var fit := s.fits[key];
    s.(bindPoses := s.bindPoses[key := bind], fits := s.fits[key := Fit(fit.sums.(solved := true), [])],
       vertices := AllRebased(s.vertices, fit.pending, bind, |fit.pending|))
  }

  lemma SolveKeeps(s: Skin, key0: nat, bind: Matrix)
    requires Inv(s) && key0 in s.fits && !s.fits[key0].sums.solved && Rigid(bind)
    requires forall truth :: key0 in s.samples && Rigid(truth) && Obeys(s.samples[key0], truth) ==> bind == truth
    ensures forall i :: 0 <= i < |s.fits[key0].pending| ==> s.fits[key0].pending[i].vertex in s.vertices
    ensures Inv(Solved(s, key0, bind))
  {
    hide Apply, Obeys, Gathered;
    assert FitOk(s, key0);
    var pending := s.fits[key0].pending;
    forall i | 0 <= i < |pending| ensures pending[i].vertex in s.vertices {
      assert pending[i] in pending;
      assert Awaits(s, pending[i], key0);
    }
    var t := Solved(s, key0, bind);
    SolvedOwned(s, key0, bind);
    forall q: Place | q.vertex in t.owner ensures Placed(t, q) {
      SolvedPlaced(s, key0, bind, q);
    }
    hide Placed;
    forall key | key in t.fits ensures FitOk(t, key) {
      SolvedFit(s, key0, bind, key);
    }
    hide FitOk, IsUsed, KeyOf, Solved;
    SolvedParts(s, key0, bind);
  }

  lemma SolvedParts(s: Skin, key0: nat, bind: Matrix)
    requires Inv(s) && key0 in s.fits && Rigid(bind)
    requires forall i :: 0 <= i < |s.fits[key0].pending| ==> s.fits[key0].pending[i].vertex in s.vertices
    ensures PosesOk(Solved(s, key0, bind))
    ensures var t := Solved(s, key0, bind);
      && t.fits.Keys == s.fits.Keys && t.owner == s.owner && t.written == s.written && t.seen == s.seen && t.group == s.group
      && forall p: Place :: p in t.seen && IsUsed(t, p) && t.owner[p.vertex] == t.group ==> KeyOf(t, p) in t.fits
  {
    hide Rigid, InGroup, Placed, Awaits, Gathered, Obeys;
    assert FitOk(s, key0);
    var t := Solved(s, key0, bind);
    forall p: Place | p in t.seen && IsUsed(t, p) && t.owner[p.vertex] == t.group
      ensures KeyOf(t, p) in t.fits
    {
      assert IsUsed(s, p) && KeyOf(t, p) == KeyOf(s, p);
    }
  }

  lemma SolvedPlaced(s: Skin, key0: nat, bind: Matrix, q: Place)
    requires Owned(s) && s.group % 0x100 == 0 && q.vertex in s.owner && Placed(s, q)
    requires key0 in s.fits && FitOk(s, key0) && !s.fits[key0].sums.solved
    requires forall i :: 0 <= i < |s.fits[key0].pending| ==> s.fits[key0].pending[i].vertex in s.vertices
    ensures Placed(Solved(s, key0, bind), q)
  {
    hide Apply, Obeys, Gathered, Rigid, SlotOf;
    var pending := s.fits[key0].pending;
    EachOnce(s.vertices, pending, bind, |pending|, q);
    assert pending[..|pending|] == pending;
    assert q in pending <==> Awaits(s, q, key0);
    if IsUsed(s, q) && KeyOf(s, q) == key0 && s.owner[q.vertex] != s.group {
      OtherGroup(s, q, s.group);
    }
  }

  lemma SolvedFit(s: Skin, key0: nat, bind: Matrix, key: nat)
    requires key0 in s.fits && key in s.fits && FitOk(s, key) && FitOk(s, key0) && !s.fits[key0].sums.solved
    requires forall truth :: Rigid(truth) && Obeys(s.samples[key0], truth) ==> bind == truth
    requires forall i :: 0 <= i < |s.fits[key0].pending| ==> s.fits[key0].pending[i].vertex in s.vertices
    ensures FitOk(Solved(s, key0, bind), key)
  {
    hide Apply, Obeys, Gathered, Rigid, InGroup;
    var t := Solved(s, key0, bind);
    forall q: Place ensures Awaits(t, q, key) <==> Awaits(s, q, key) {
    }
  }

  lemma SolvedOwned(s: Skin, key0: nat, bind: Matrix)
    requires Inv(s) && key0 in s.fits
    requires forall i :: 0 <= i < |s.fits[key0].pending| ==> s.fits[key0].pending[i].vertex in s.vertices
    ensures Owned(Solved(s, key0, bind))
  {
    assert FitOk(s, key0);
    var pending := s.fits[key0].pending;
    var t := Solved(s, key0, bind);
    forall a | a in t.owner
      ensures t.vertices[a].(off0 := s.written[a].off0, off1 := s.written[a].off1, normal := s.written[a].normal) == s.written[a]
    {
      EachOnce(s.vertices, pending, bind, |pending|, Place(a, false));
    }
  }

  // ---- What the invariant does not look at.

  function WithNormal(s: Skin, a: nat, n: Vec): Skin
    requires a in s.vertices
  {
    s.(vertices := s.vertices[a := s.vertices[a].(normal := n)])
  }

  lemma NormalKeeps(s: Skin, a: nat, n: Vec)
    requires Inv(s) && a in s.vertices
    ensures Inv(WithNormal(s, a, n))
    ensures AllSeen(s) ==> AllSeen(WithNormal(s, a, n))
  {
    hide FitOk, Apply, InGroup;
    var t := WithNormal(s, a, n);
    forall q: Place | q.vertex in t.owner ensures Placed(t, q) {
      assert Placed(s, q);
    }
    forall key | key in t.fits ensures FitOk(t, key) {
      assert FitOk(s, key);
      forall q: Place ensures Awaits(t, q, key) <==> Awaits(s, q, key) {
      }
      FitAlike(s, t, key);
    }
  }

  /** A vertex of a mesh that is not skinned. */
  function Foreign(s: Skin, a: nat, v: Vertex): Skin {
    s.(vertices := s.vertices[a := v], written := s.written[a := v], owner := s.owner - {a})
  }

  lemma ForeignKeeps(s: Skin, a: nat, v: Vertex)
    requires Inv(s) && (a in s.owner ==> s.owner[a] != s.group)
    ensures Inv(Foreign(s, a, v))
    ensures AllSeen(s) ==> AllSeen(Foreign(s, a, v))
  {
    hide FitOk, Apply, InGroup;
    var t := Foreign(s, a, v);
    forall q: Place | q.vertex in t.owner ensures Placed(t, q) {
      assert Placed(s, q);
    }
    forall key | key in t.fits ensures FitOk(t, key) {
      assert FitOk(s, key);
      forall q: Place ensures Awaits(t, q, key) <==> Awaits(s, q, key) {
      }
      FitAlike(s, t, key);
    }
  }

  // ---- The hook itself.

  /** The engine's stray rotation, which is its own inverse. */
  function Turned(n: Vec): Vec {
    Vec(-n.x, n.z, n.y)
  }

  /** The poses of the other meshes and levels stay. */
  ghost predicate OthersStay(poses: map<nat, Matrix>, was: map<nat, Matrix>, group: nat) {
    forall key :: !InGroup(key, group) ==> (key in poses <==> key in was) && (key in was ==> poses[key] == was[key])
  }

  ghost predicate Grows(poses: map<nat, Matrix>, was: map<nat, Matrix>) {
    forall key :: key in was ==> key in poses && poses[key] == was[key]
  }

  lemma PosesSteps(a: map<nat, Matrix>, b: map<nat, Matrix>, c: map<nat, Matrix>, d: map<nat, Matrix>, group: nat)
    requires OthersStay(b, a, group) && OthersStay(c, b, group) && OthersStay(d, c, group)
    requires Grows(c, b) && Grows(d, c)
    ensures OthersStay(d, a, group) && (Grows(b, a) ==> Grows(d, a))
  {
    hide InGroup;
  }

  lemma BothSeen(was: Skin, s: Skin, a: nat)
    requires AllSeen(was) && s.owner == was.owner[a := s.group] && was.seen - {Place(a, false), Place(a, true)} <= s.seen
    requires Place(a, false) in s.seen && Place(a, true) in s.seen
    ensures AllSeen(s)
  {
    forall p: Place | p.vertex in s.owner ensures p in s.seen {
      if p.vertex == a {
        assert p == Place(a, p.second);
      }
    }
  }

  lemma WithoutStays(poses: map<nat, Matrix>, group: nat)
    ensures OthersStay(Without(poses, group), poses, group)
    ensures OthersStay(poses, poses, group) && Grows(poses, poses)
  {
  }

  lemma NewAddress(s: Skin, a: nat)
    requires Inv(s) && a > s.last
    ensures a !in s.owner || s.owner[a] != s.group
  {
  }

  lemma BegunAddress(s: Skin, a: nat, group: nat)
    ensures a !in Begun(s, group).owner || Begun(s, group).owner[a] != group
    ensures Begun(s, group).owner == Discarded(s.owner, group) && Begun(s, group).bindPoses == Without(s.bindPoses, group)
    ensures Begun(s, group).samples == map[] && Begun(s, group).fits == map[]
    ensures Begun(s, group).last == 0 && Begun(s, group).group == group && Begun(s, group).written == s.written
  {
  }

  lemma FitOf(s: Skin, key: nat)
    requires Inv(s) && key in s.fits
    ensures FitOk(s, key)
  {
  }

  /** The vertex just written. */
  lemma AtHand(s: Skin, p: Place)
    requires Inv(s) && Fresh(s, p)
    ensures p.vertex in s.vertices && p.vertex in s.written && p.vertex in s.owner && s.owner[p.vertex] == s.group
    ensures IsUsed(s, p) <==> Used(s.vertices[p.vertex], p.second)
    ensures CodeOf(s.written[p.vertex], p.second) == CodeOf(s.vertices[p.vertex], p.second) < 0x100
  {
  }

  lemma NotUsed(s: Skin, p: Place)
    requires p.vertex in s.vertices && (IsUsed(s, p) <==> Used(s.vertices[p.vertex], p.second))
    requires !Used(s.vertices[p.vertex], p.second)
    ensures !IsUsed(s, p)
  {
  }

  lemma ItsKey(s: Skin, p: Place, mesh: nat, lod: int)
    requires Inv(s) && Fresh(s, p) && IsUsed(s, p) && s.group == PoseKey(mesh, lod, 0)
    ensures var code := CodeOf(s.written[p.vertex], p.second);
      code >= 3 && KeyOf(s, p) == PoseKey(mesh, lod, SlotOf(code)) == PoseKey(mesh, lod, 0) + SlotOf(code)
  {
    hide Placed, FitOk, FitsOk, PosesOk, PoseKey;
    var slot := SlotOf(CodeOf(s.written[p.vertex], p.second));
    GroupKeys(mesh, lod, slot, mesh, lod);
  }

  lemma SolvedPose(s: Skin, key: nat)
    requires Inv(s) && key in s.fits
    ensures s.fits[key].sums.solved <==> key in s.bindPoses
    ensures key in s.samples
  {
    assert FitOk(s, key);
  }

  lemma CountIs(s: Skin, key: nat)
    requires Inv(s) && key in s.fits && !s.fits[key].sums.solved
    ensures key in s.samples && s.fits[key].sums.count == |s.samples[key]| && key !in s.bindPoses
  {
    assert FitOk(s, key);
    KeptAreFirst(s.samples[key]);
  }

  lemma SumsAreSamples(s: Skin, key: nat)
    requires Inv(s) && key in s.fits && !s.fits[key].sums.solved
    ensures key in s.samples && s.fits[key].sums == Gathered(s.samples[key]) && key !in s.bindPoses
  {
    hide Gathered;
    assert FitOk(s, key);
  }

  lemma NoPoseYet(s: Skin, p: Place)
    requires Inv(s) && Fresh(s, p) && IsUsed(s, p) && KeyOf(s, p) !in s.fits
    ensures KeyOf(s, p) !in s.bindPoses
  {
    hide Placed, FitOk, SlotOf;
    InOwnGroup(s, p);
  }

  lemma OneMorePose(s: Skin, key: nat, bind: Matrix)
    requires Inv(s) && key in s.fits && !s.fits[key].sums.solved
    ensures OthersStay(s.bindPoses[key := bind], s.bindPoses, s.group) && Grows(s.bindPoses[key := bind], s.bindPoses)
  {
    assert FitOk(s, key);
  }

  class Skinner {
    const sqrt: real -> real
    var bindPoses: map<nat, Matrix>
    var slotFits: map<nat, Fit>
    var lastVertex: nat
    var lastMesh: nat
    var lastLod: int
    var vertices: map<nat, Vertex>
    ghost var written: map<nat, Vertex>
    ghost var owner: map<nat, nat>
    ghost var seen: set<Place>
    ghost var samples: map<nat, seq<Sample>>

    constructor (sqrt: real -> real)
      requires SquareRoot(sqrt)
      ensures Valid() && owner == map[] && bindPoses == map[]
    {
      this.sqrt := sqrt;
      bindPoses, slotFits, lastVertex, lastMesh, lastLod, vertices := map[], map[], 0, 0, -1, map[];
      written, owner, seen, samples := map[], map[], {}, map[];
      new;
      GroupKeys(0, -1, 0, 0, -1);
    }

    ghost function State(): Skin
      reads this
    {
      Skin(bindPoses, slotFits, PoseKey(lastMesh, lastLod, 0), lastVertex, vertices, written, owner, seen, samples)
    }

    /** Between two vertices: each offset of each vertex of the last build of its mesh and level is rebased
        exactly once if its slot has a bind pose, and not touched otherwise; and a slot has the bind pose
        that its samples give. */
    ghost predicate Valid()
      reads this
    {
      SquareRoot(sqrt) && Inv(State()) && AllSeen(State()) && AllSettled(bindPoses, samples, slotFits.Keys, sqrt)
    }

    /** One vertex, which the game has just written: src/bf/skinning.cpp:261-346. */
    method OnSkinnedVertexBuilt(a: nat, mesh: nat, lod: int, skinned: bool, raw: Vertex, source: Option<Vec>)
      requires Valid() && raw.code0 < 0x100 && raw.code1 < 0x100
      requires !skinned ==> a !in owner || owner[a] != PoseKey(lastMesh, lastLod, 0)
      modifies this
      ensures Valid()
      ensures a in written && written == old(written)[a := raw]
      ensures if skinned then lastMesh == mesh && lastLod == lod && lastVertex == a
        else lastMesh == old(lastMesh) && lastLod == old(lastLod) && lastVertex == old(lastVertex)
      ensures !skinned ==> owner == old(owner) - {a} && bindPoses == old(bindPoses) && vertices == old(vertices)[a := raw]
      ensures !skinned ==> samples == old(samples)
      ensures skinned ==>
        && a in owner
        && owner == (if Continues(old(lastMesh), old(lastLod), old(lastVertex), mesh, lod, a) then old(owner)
                     else Discarded(old(owner), PoseKey(mesh, lod, 0)))[a := PoseKey(mesh, lod, 0)]
        && OthersStay(bindPoses, old(bindPoses), PoseKey(mesh, lod, 0))
        && (Continues(old(lastMesh), old(lastLod), old(lastVertex), mesh, lod, a) ==> Grows(bindPoses, old(bindPoses)))
        && a in vertices && NormalFixed(raw.normal, vertices[a].normal)
      ensures skinned ==>
        var on, group := Continues(old(lastMesh), old(lastLod), old(lastVertex), mesh, lod, a), PoseKey(mesh, lod, 0);
        var poses := if on then old(bindPoses) else Without(old(bindPoses), group);
        Learned(samples, if on then old(samples) else map[], raw, source, group, poses)
    {
      hide AllSettled, Learned, OthersStay, Grows, Without, Inv, AllSeen, Discarded, PoseKey, NormalFixed, InGroup, SquareRoot;
      if !skinned {
        ForeignKeeps(State(), a, raw);
        vertices := vertices[a := raw];
        written, owner := written[a := raw], owner - {a};
      } else {
        BuildVertex(a, mesh, lod, raw, source);
      }
    }

    method BuildVertex(a: nat, mesh: nat, lod: int, raw: Vertex, source: Option<Vec>)
      requires Valid() && raw.code0 < 0x100 && raw.code1 < 0x100
      modifies this
      ensures Valid()
      ensures written == old(written)[a := raw] && lastMesh == mesh && lastLod == lod && lastVertex == a
      ensures owner == (if Continues(old(lastMesh), old(lastLod), old(lastVertex), mesh, lod, a) then old(owner)
                        else Discarded(old(owner), PoseKey(mesh, lod, 0)))[a := PoseKey(mesh, lod, 0)]
      ensures OthersStay(bindPoses, old(bindPoses), PoseKey(mesh, lod, 0))
      ensures Continues(old(lastMesh), old(lastLod), old(lastVertex), mesh, lod, a) ==> Grows(bindPoses, old(bindPoses))
      ensures a in vertices && NormalFixed(raw.normal, vertices[a].normal)
      ensures var on, group := Continues(old(lastMesh), old(lastLod), old(lastVertex), mesh, lod, a), PoseKey(mesh, lod, 0);
        var poses := if on then old(bindPoses) else Without(old(bindPoses), group);
        Learned(samples, if on then old(samples) else map[], raw, source, group, poses)
    {
      hide AllSettled, Learned, NothingLearned, Without, Inv, AllSeen, Discarded, PoseKey, NormalFixed, InGroup, SquareRoot;
      ghost var was := BeginVertex(a, mesh, lod, raw);
      ghost var begun := bindPoses;
      Influence(a, false, source);
      ghost var once, poses := samples, bindPoses;
      Influence(a, true, source);
      NothingAfter(samples, once, was.samples, raw, source, was.group, was.bindPoses);
      PosesSteps(old(bindPoses), begun, poses, bindPoses, was.group);
      BothSeen(was, State(), a);
      hide OthersStay, Grows;
      var n := FixNormal(vertices[a].normal);
      NormalKeeps(State(), a, n);
      vertices := vertices[a := vertices[a].(normal := n)];
    }

    /** A build goes on or a new one begins: src/bf/skinning.cpp:272-283. */
    method BeginVertex(a: nat, mesh: nat, lod: int, raw: Vertex) returns (ghost was: Skin)
      requires Valid() && raw.code0 < 0x100 && raw.code1 < 0x100
      modifies this
      ensures SquareRoot(sqrt) && Inv(State()) && AllSeen(was) && State() == Written(was, a, raw)
      ensures AllSettled(bindPoses, samples, slotFits.Keys, sqrt)
      ensures lastMesh == mesh && lastLod == lod && lastVertex == a
      ensures written == old(written)[a := raw]
      ensures was.owner == if Continues(old(lastMesh), old(lastLod), old(lastVertex), mesh, lod, a) then old(owner)
        else Discarded(old(owner), PoseKey(mesh, lod, 0))
      ensures OthersStay(bindPoses, old(bindPoses), PoseKey(mesh, lod, 0))
      ensures Continues(old(lastMesh), old(lastLod), old(lastVertex), mesh, lod, a) ==> Grows(bindPoses, old(bindPoses))
      ensures was.group == PoseKey(mesh, lod, 0)
      ensures if Continues(old(lastMesh), old(lastLod), old(lastVertex), mesh, lod, a)
        then was.samples == old(samples) && was.bindPoses == old(bindPoses)
        else was.samples == map[] && was.bindPoses == Without(old(bindPoses), PoseKey(mesh, lod, 0))
    {
      hide Settled, Inv, AllSeen, Discarded, Without, OthersStay, Grows, PoseKey, InGroup, Begun, SquareRoot;
      was := State();
      WithoutStays(bindPoses, PoseKey(mesh, lod, 0));
      if mesh != lastMesh || lod != lastLod || a != lastVertex + STRIDE {
        was := Begin(mesh, lod);
        BegunAddress(old(State()), a, PoseKey(mesh, lod, 0));
      } else {
        NewAddress(was, a);
      }
      WriteKeeps(was, a, raw);
      Enter(a, mesh, lod, raw);
    }

    method Begin(mesh: nat, lod: int) returns (ghost was: Skin)
      requires Inv(State())
      modifies `slotFits, `bindPoses, `lastMesh, `lastLod, `lastVertex, `owner, `samples
      ensures State() == was == Begun(old(State()), PoseKey(mesh, lod, 0)) && Inv(was)
      ensures AllSeen(old(State())) ==> AllSeen(was)
      ensures lastMesh == mesh && lastLod == lod
    {
      hide Inv, AllSeen, AllSettled, Discarded, Without, PoseKey, InGroup;
      var first := PoseKey(mesh, lod, 0);
      GroupKeys(mesh, lod, 0, mesh, lod);
      BeginKeeps(State(), first);
      slotFits := map[];
      bindPoses := Without(bindPoses, first);
      owner, samples := Discarded(owner, first), map[];
      lastMesh, lastLod, lastVertex := mesh, lod, 0;
      was := State();
    }

    method Enter(a: nat, mesh: nat, lod: int, raw: Vertex)
      requires lastMesh == mesh && lastLod == lod
      modifies `lastMesh, `lastLod, `lastVertex, `vertices, `written, `owner, `seen
      ensures State() == Written(old(State()), a, raw)
      ensures lastMesh == mesh && lastLod == lod
    {
      hide PoseKey;
      lastMesh, lastLod, lastVertex := mesh, lod, a;
      vertices := vertices[a := raw];
      written, owner, seen := written[a := raw], owner[a := PoseKey(mesh, lod, 0)], seen - {Place(a, false), Place(a, true)};
    }

    /** The turn of the loop for one influence: src/bf/skinning.cpp:289-331. */
    method Influence(a: nat, second: bool, source: Option<Vec>)
      requires SquareRoot(sqrt) && Inv(State()) && Fresh(State(), Place(a, second))
      requires AllSettled(bindPoses, samples, slotFits.Keys, sqrt)
      requires a in vertices
      modifies `bindPoses, `slotFits, `vertices, `seen, `samples
      ensures Inv(State()) && AllSettled(bindPoses, samples, slotFits.Keys, sqrt)
      ensures if second then NothingLearned(samples, old(samples))
        else Learned(samples, old(samples), old(vertices)[a], source, PoseKey(lastMesh, lastLod, 0), old(bindPoses))
      ensures seen == old(seen) + {Place(a, second)}
      ensures OthersStay(bindPoses, old(bindPoses), PoseKey(lastMesh, lastLod, 0)) && Grows(bindPoses, old(bindPoses))
      ensures a in vertices && a in old(vertices) && vertices[a].normal == old(vertices)[a].normal
    {
      hide AllSettled, Settled, Lesson, Learned, NothingLearned, Inv, Fresh, IsUsed, KeyOf, Placed, PoseKey, InGroup, OthersStay, Grows, Entered, Queued, Rebased, SquareRoot;
      var p := Place(a, second);
      AtHand(State(), p);
      WithoutStays(bindPoses, PoseKey(lastMesh, lastLod, 0));
      var v := vertices[a];
      var single := Single(v);
      var code := CodeOf(v, second);
      ghost var group, poses, was := PoseKey(lastMesh, lastLod, 0), bindPoses, samples;
      if code < 3 || (second && v.w1 <= 0.0) {
        NotUsed(State(), p);
        SkipKeeps(State(), p);
        seen := seen + {p};
        Unchanged(samples);
        if !second {
          NoLesson(samples, was, v, source, group, poses);
        }
        return;
      }
      var key := PoseKey(lastMesh, lastLod, (code - 3) / 3);
      ItsKey(State(), p, lastMesh, lastLod);
      var solved := EnterSlot(key, p);
      if solved {
        RebasePlace(key, p);
        if !second {
          NoLesson(samples, was, v, source, group, poses);
        }
        return;
      }
      Queue(key, p);
      if second || !single || source.None? {
        if !second {
          NoLesson(samples, was, v, source, group, poses);
        }
        return;
      }
      ghost var between := samples;
      Measure(key, v.off0, source.value);
      OneLesson(samples, between, was, v, source, group, poses, key);
      if slotFits[key].sums.count < ENOUGH {
        CountIs(State(), key);
        TooFewSettle(bindPoses, samples, key, sqrt);
      } else {
        Solve(key);
      }
      MeasureSettles(poses, bindPoses, between, samples, slotFits.Keys, sqrt, key);
    }

    /** operator[] of the map of slots. */
    method EnterSlot(key: nat, p: Place) returns (solved: bool)
      requires Inv(State()) && Fresh(State(), p) && IsUsed(State(), p) && key == KeyOf(State(), p)
      requires AllSettled(bindPoses, samples, slotFits.Keys, sqrt)
      modifies `slotFits, `samples
      ensures Inv(State()) && Fresh(State(), p) && IsUsed(State(), p) && key == KeyOf(State(), p)
      ensures key in slotFits && solved == slotFits[key].sums.solved && (solved <==> key in bindPoses)
      ensures AllSettled(bindPoses, samples, slotFits.Keys, sqrt) && NothingLearned(samples, old(samples)) && key in samples
    {
      hide Settled, Inv, Placed, Gathered, SlotOf;
      ghost var s := State();
      EnterKeeps(s, p);
      if key !in slotFits {
        NoPoseYet(s, p);
        EnterSettles(bindPoses, samples, slotFits.Keys, sqrt, key);
        slotFits := slotFits[key := NOTHING];
        samples := samples[key := []];
      }
      assert State() == Entered(s, key);
      SolvedPose(State(), key);
      solved := slotFits[key].sums.solved;
    }

    method RebasePlace(key: nat, p: Place)
      requires Inv(State()) && Fresh(State(), p) && IsUsed(State(), p) && key == KeyOf(State(), p) && key in bindPoses
      modifies `vertices, `seen
      ensures Inv(State()) && seen == old(seen) + {p}
      ensures p.vertex in vertices && p.vertex in old(vertices) && vertices[p.vertex].normal == old(vertices)[p.vertex].normal
    {
      hide Inv, IsUsed, KeyOf, Apply;
      AtHand(State(), p);
      RebaseKeeps(State(), p);
      vertices := Rebased(vertices, p, bindPoses[key]);
      seen := seen + {p};
    }

    method Queue(key: nat, p: Place)
      requires Inv(State()) && Fresh(State(), p) && IsUsed(State(), p) && key == KeyOf(State(), p)
      requires key in slotFits && !slotFits[key].sums.solved
      modifies `slotFits, `seen
      ensures Inv(State()) && seen == old(seen) + {p} && key in slotFits && !slotFits[key].sums.solved && key in samples
      ensures slotFits.Keys == old(slotFits).Keys
    {
      hide Inv, Fresh, IsUsed, KeyOf;
      QueueKeeps(State(), p);
      SolvedPose(State(), key);
      slotFits := slotFits[key := slotFits[key].(pending := slotFits[key].pending + [p])];
      seen := seen + {p};
    }

    method Measure(key: nat, offset: Vec, position: Vec)
      requires Inv(State()) && key in slotFits && !slotFits[key].sums.solved && key in samples
      modifies `slotFits, `samples
      ensures Inv(State()) && key in slotFits && !slotFits[key].sums.solved && key in samples
      ensures samples == old(samples)[key := old(samples)[key] + [Sample(offset, position)]] && slotFits.Keys == old(slotFits).Keys
    {
      hide Inv;
      ghost var s := State();
      FitOf(s, key);
      MeasureKeeps(s, key, Sample(offset, position));
      var fit := slotFits[key];
      var sums := AddEquation(fit.sums, offset, position);
      slotFits := slotFits[key := fit.(sums := sums)];
      samples := samples[key := samples[key] + [Sample(offset, position)]];
      assert State() == Measured(s, key, Sample(offset, position));
    }

    method Solve(key: nat)
      requires SquareRoot(sqrt) && Inv(State()) && key in slotFits && !slotFits[key].sums.solved && key in samples
      modifies `bindPoses, `slotFits, `vertices
      ensures Inv(State()) && slotFits.Keys == old(slotFits).Keys
      ensures Settled(bindPoses, samples, key, sqrt)
      ensures forall k :: k != key ==> (k in bindPoses <==> k in old(bindPoses)) && (k in bindPoses ==> bindPoses[k] == old(bindPoses)[k])
      ensures OthersStay(bindPoses, old(bindPoses), PoseKey(lastMesh, lastLod, 0)) && Grows(bindPoses, old(bindPoses))
      ensures vertices.Keys == old(vertices).Keys
      ensures forall a :: a in vertices ==> vertices[a].normal == old(vertices)[a].normal
    {
      hide Inv, Rigid, Obeys, Gathered, Reduce, Off, OthersStay, Grows, InGroup, PoseKey, SquareRoot, AllRebased;
      ghost var s := State();
      FitOf(s, key);
      SumsAreSamples(s, key);
      WithoutStays(bindPoses, PoseKey(lastMesh, lastLod, 0));
      var fit := slotFits[key];
      var bind := FitAffine(fit.sums, samples[key], sqrt);
      if bind.None? {
        return;
      }
      SolveKeeps(s, key, bind.value);
      OneMorePose(s, key, bind.value);
      bindPoses := bindPoses[key := bind.value];
      CatchUp(fit.pending, bind.value);
      slotFits := slotFits[key := Fit(fit.sums.(solved := true), [])];
      assert State() == Solved(s, key, bind.value);
    }

    /** The offsets that waited for the pose. */
    method CatchUp(pending: seq<Place>, bind: Matrix)
      requires forall i :: 0 <= i < |pending| ==> pending[i].vertex in vertices
      modifies `vertices
      ensures vertices == AllRebased(old(vertices), pending, bind, |pending|) && vertices.Keys == old(vertices).Keys
      ensures forall a :: a in vertices ==> vertices[a].normal == old(vertices)[a].normal
    {
      hide Apply;
      for k := 0 to |pending|
        invariant vertices == AllRebased(old(vertices), pending, bind, k) && vertices.Keys == old(vertices).Keys
        invariant forall a :: a in vertices ==> vertices[a].normal == old(vertices)[a].normal
      {
        vertices := Rebased(vertices, pending[k], bind);
      }
    }

    /** A normal of length one, unless it is too short to tell. */
    method FixNormal(n: Vec) returns (r: Vec)
      requires SquareRoot(sqrt)
      ensures NormalFixed(n, r)
    {
      var turned := Turned(n);
      var squared := Dot(turned, turned);
      if squared < 0.000000000001 {
        return n;
      }
      var len := sqrt(squared);
      ScaledToOne(turned, len);
      r := Scaled(turned, len);
      assert r == Scaled(turned, sqrt(Dot(turned, turned)));
    }

    /** A normal of length one that the engine has turned, x turning its sign and y and z changing places, and
        stretched, comes back as it was. */
    lemma NormalComesBack(normal: Vec, stretch: real, r: Vec)
      requires SquareRoot(sqrt) && Dot(normal, normal) == 1.0 && stretch >= 0.000001
      requires NormalFixed(Vec(-normal.x * stretch, normal.z * stretch, normal.y * stretch), r)
      ensures r == normal
    {
      var turned := Vec(normal.x * stretch, normal.y * stretch, normal.z * stretch);
      assert Turned(Vec(-normal.x * stretch, normal.z * stretch, normal.y * stretch)) == turned;
      hide Turned, Dot;
      Grown(normal, stretch, turned);
      LongEnough(stretch);
      SameRoot(sqrt(Dot(turned, turned)), stretch);
      Unstretched(normal.x, stretch);
      Unstretched(normal.y, stretch);
      Unstretched(normal.z, stretch);
    }

    ghost predicate NormalFixed(n: Vec, r: Vec) {
      var turned := Turned(n);
      if Dot(turned, turned) < 0.000000000001 then r == n
      else Dot(r, r) == 1.0 && sqrt(Dot(turned, turned)) != 0.0 && r == Scaled(turned, sqrt(Dot(turned, turned)))
    }
  }

  lemma LongEnough(f: real)
    requires f >= 0.000001
    ensures f * f >= 0.000000000001 && 1.0 * f * f == f * f
  {
    RigidMotion.Times(f - 0.000001, f + 0.000001);
  }

  lemma SameRoot(x: real, f: real)
    requires x >= 0.0 && f > 0.0 && x * x == f * f
    ensures x == f
  {
    assert (x - f) * (x + f) == 0.0;
    NoFactor(x - f, x + f);
  }

  lemma Unstretched(x: real, f: real)
    requires f != 0.0
    ensures (x * f) / f == x
  {
  }

  predicate Continues(lastMesh: nat, lastLod: int, lastVertex: nat, mesh: nat, lod: int, a: nat) {
    mesh == lastMesh && lod == lastLod && a == lastVertex + STRIDE
  }
}
