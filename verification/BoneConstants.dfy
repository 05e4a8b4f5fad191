/** The bone constants just before they go to the vertex shader (src/bf/skinning.cpp:351-383), and where
    the shader then puts a vertex (src/bf/SkinningShader2Bones.vs:40-65). */
module BoneConstants {
  import opened Wrappers
  import opened RigidMotion
  import opened Skinning

  const BLOCK: nat := 12

  /** The matrix of a slot: three registers behind the identity block, a column each. */
  function MatrixIn(c: seq<real>, slot: nat): Matrix
    requires BLOCK * slot + 2 * BLOCK <= |c|
  {
    var d := BLOCK + BLOCK * slot;
    Matrix(Vec(c[d], c[d + 4], c[d + 8]), Vec(c[d + 1], c[d + 5], c[d + 9]), Vec(c[d + 2], c[d + 6], c[d + 10]),
           Vec(c[d + 3], c[d + 7], c[d + 11]))
  }

  function ConstantFor(poses: map<nat, Matrix>, key: nat, current: Matrix): Matrix {
    if key in poses then Delta(poses[key], current) else current
  }

  /** Each slot with a bind pose holds the motion since that pose, everything else is as it was. */
  ghost predicate Converted(poses: map<nat, Matrix>, mesh: nat, lod: int, before: seq<real>, after: seq<real>, count: nat)
    requires BLOCK * count + BLOCK <= |before|
  {
    && |after| == |before|
    && (forall slot: nat :: slot < count ==> MatrixIn(after, slot) == ConstantFor(poses, PoseKey(mesh, lod, slot), MatrixIn(before, slot)))
    && after[..BLOCK] == before[..BLOCK]
    && after[BLOCK + BLOCK * count..] == before[BLOCK + BLOCK * count..]
  }

  lemma Bound(slot: nat, count: nat)
    requires slot < count
    ensures BLOCK * slot + BLOCK <= BLOCK * count
  {
  }

  method OnBoneConstantsReady(poses: map<nat, Matrix>, buffer: array<real>, boneCount: int, mesh: nat, lod: int)
    requires boneCount <= 0 || BLOCK * boneCount + BLOCK <= buffer.Length
    requires BLOCK <= buffer.Length
    modifies buffer
    ensures Converted(poses, mesh, lod, old(buffer[..]), buffer[..], if boneCount < 0 then 0 else boneCount)
  {
    var slot: nat := 0;
    ghost var start := buffer[..];
    while slot < boneCount
      invariant slot <= if boneCount < 0 then 0 else boneCount
      invariant slot == 0 || BLOCK * slot + BLOCK <= buffer.Length
      invariant Converted(poses, mesh, lod, start, buffer[..], slot)
    {
      Bound(slot, boneCount);
      var key := PoseKey(mesh, lod, slot);
      ghost var was := buffer[..];
      if key in poses {
        ConvertSlot(buffer, slot, poses[key]);
      }
      OneMore(poses, mesh, lod, start, was, buffer[..], slot);
      slot := slot + 1;
    }
  }

  /** src/bf/skinning.cpp:361-381. */
  method ConvertSlot(buffer: array<real>, slot: nat, bind: Matrix)
    requires BLOCK * slot + 2 * BLOCK <= buffer.Length
    modifies buffer
    ensures MatrixIn(buffer[..], slot) == Delta(bind, old(MatrixIn(buffer[..], slot)))
    ensures forall i :: 0 <= i < buffer.Length && !(BLOCK + BLOCK * slot <= i < 2 * BLOCK + BLOCK * slot) ==>
      buffer[i] == old(buffer[i])
  {
    hide RigidInverse, Multiply;
    var dst := BLOCK + BLOCK * slot;
    var current := Matrix(Vec(buffer[dst], buffer[dst + 4], buffer[dst + 8]),
                          Vec(buffer[dst + 1], buffer[dst + 5], buffer[dst + 9]),
                          Vec(buffer[dst + 2], buffer[dst + 6], buffer[dst + 10]),
                          Vec(buffer[dst + 3], buffer[dst + 7], buffer[dst + 11]));
    var delta := Multiply(RigidInverse(bind), current);
    Store(buffer, dst, 0, delta.r0.x, delta.r1.x, delta.r2.x, delta.t.x);
    Store(buffer, dst, 1, delta.r0.y, delta.r1.y, delta.r2.y, delta.t.y);
    Store(buffer, dst, 2, delta.r0.z, delta.r1.z, delta.r2.z, delta.t.z);
  }

  /** One column. */
  method Store(buffer: array<real>, dst: nat, c: nat, x: real, y: real, z: real, t: real)
    requires c < 3 && dst + 12 <= buffer.Length
    modifies buffer
    ensures buffer[..] == old(buffer[..])[dst + 4 * c := x][dst + 4 * c + 1 := y][dst + 4 * c + 2 := z][dst + 4 * c + 3 := t]
  {
    buffer[dst + c * 4] := x;
    buffer[dst + c * 4 + 1] := y;
    buffer[dst + c * 4 + 2] := z;
    buffer[dst + c * 4 + 3] := t;
  }

  lemma OneMore(poses: map<nat, Matrix>, mesh: nat, lod: int, start: seq<real>, was: seq<real>, now: seq<real>, slot: nat)
    requires BLOCK * slot + 2 * BLOCK <= |start| && Converted(poses, mesh, lod, start, was, slot)
    requires |now| == |was| && (forall i :: 0 <= i < |now| && !(BLOCK + BLOCK * slot <= i < 2 * BLOCK + BLOCK * slot) ==> now[i] == was[i])
    requires MatrixIn(now, slot) == ConstantFor(poses, PoseKey(mesh, lod, slot), MatrixIn(was, slot))
    ensures Converted(poses, mesh, lod, start, now, slot + 1)
  {
    hide ConstantFor, PoseKey;
    var d := BLOCK + BLOCK * slot;
    forall i | d <= i < |was| ensures was[i] == start[i] {
      assert was[d..][i - d] == start[d..][i - d];
    }
    assert MatrixIn(was, slot) == MatrixIn(start, slot);
    forall other: nat | other < slot + 1
      ensures MatrixIn(now, other) == ConstantFor(poses, PoseKey(mesh, lod, other), MatrixIn(start, other))
    {
      if other < slot {
        Bound(other, slot);
        assert MatrixIn(now, other) == MatrixIn(was, other);
      }
    }
    assert now[..BLOCK] == was[..BLOCK];
  }

  // ---- The shader.

  /** One dp4 of an offset, with a one behind it, and a register from c9 on. */
  function Dp4(o: Vec, c: seq<real>, register: nat): real
    requires 4 * register + 4 <= |c|
  {
    o.x * c[4 * register] + o.y * c[4 * register + 1] + o.z * c[4 * register + 2] + c[4 * register + 3]
  }

  function Transform(o: Vec, c: seq<real>, code: nat): Vec
    requires 4 * code + 12 <= |c|
  {
    Vec(Dp4(o, c, code), Dp4(o, c, code + 1), Dp4(o, c, code + 2))
  }

  function Weighed(w: real, v: Vec): Vec {
    Vec(w * v.x, w * v.y, w * v.z)
  }

  /** The blended position. */
  function Position(v: Vertex, c: seq<real>): Vec
    requires 4 * v.code0 + 12 <= |c| && 4 * v.code1 + 12 <= |c|
  {
    var a := Weighed(v.w0, Transform(v.off0, c, v.code0));
    var b := Weighed(v.w1, Transform(v.off1, c, v.code1));
    Vec(a.x + b.x, a.y + b.y, a.z + b.z)
  }

  /** The codes that the game writes: the identity block or a slot of the mesh. */
  ghost predicate Addresses(code: nat, count: nat) {
    code == 0 || (code % 3 == 0 && SlotOf(code) < count)
  }

  lemma SlotRegisters(o: Vec, c: seq<real>, code: nat)
    requires code >= 3 && code % 3 == 0 && 4 * code + 12 <= |c|
    ensures BLOCK * SlotOf(code) + 2 * BLOCK <= |c| && Transform(o, c, code) == Apply(o, MatrixIn(c, SlotOf(code)))
  {
    var slot := SlotOf(code);
    assert code == 3 + 3 * slot;
    var m := MatrixIn(c, slot);
    assert Dp4(o, c, code) == o.x * m.r0.x + o.y * m.r1.x + o.z * m.r2.x + m.t.x;
    assert Dp4(o, c, code + 1) == o.x * m.r0.y + o.y * m.r1.y + o.z * m.r2.y + m.t.y;
    assert Dp4(o, c, code + 2) == o.x * m.r0.z + o.y * m.r1.z + o.z * m.r2.z + m.t.z;
  }

  lemma InRange(code: nat, count: nat, n: nat)
    requires Addresses(code, count) && BLOCK * count + BLOCK <= n
    ensures 4 * code + 12 <= n
  {
    if code != 0 {
      assert code == 3 + 3 * SlotOf(code);
    }
  }

  /** One influence: where its offset was rebased the constant was converted, and otherwise neither. */
  lemma InfluenceStays(s: Skin, a: nat, second: bool, mesh: nat, lod: int, before: seq<real>, after: seq<real>, count: nat)
    requires Inv(s) && AllSeen(s) && a in s.owner && s.owner[a] == PoseKey(mesh, lod, 0)
    requires BLOCK * count + BLOCK <= |before| && Converted(s.bindPoses, mesh, lod, before, after, count)
    requires Addresses(CodeOf(s.written[a], second), count) && (second ==> s.written[a].w1 > 0.0)
    ensures var code := CodeOf(s.written[a], second);
      && 4 * code + 12 <= |before|
      && Transform(Offset(s.vertices[a], second), after, code) == Transform(Offset(s.written[a], second), before, code)
  {
    var p := Place(a, second);
    var code := CodeOf(s.written[a], second);
    var was, now := Offset(s.written[a], second), Offset(s.vertices[a], second);
    InRange(code, count, |before|);
    assert Placed(s, p);
    hide Inv, AllSeen, Placed;
    if code == 0 {
      Identity(now, before, after);
    } else {
      var slot := SlotOf(code);
      SlotRegisters(was, before, code);
      SlotRegisters(now, after, code);
      GroupKeys(mesh, lod, slot, mesh, lod);
      InfluencePlaced(s, p);
      var key := KeyOf(s, p);
      assert key == PoseKey(mesh, lod, slot);
      var m := MatrixIn(before, slot);
      if key in s.bindPoses {
        RebasedStays(was, s.bindPoses[key], m);
      }
    }
  }

  lemma InfluencePlaced(s: Skin, p: Place)
    requires Inv(s) && AllSeen(s) && IsUsed(s, p)
    ensures p.vertex in s.vertices && Offset(s.vertices[p.vertex], p.second) ==
      var o := Offset(s.written[p.vertex], p.second);
      if KeyOf(s, p) in s.bindPoses then Apply(o, s.bindPoses[KeyOf(s, p)]) else o
    ensures KeyOf(s, p) in s.bindPoses ==> Rigid(s.bindPoses[KeyOf(s, p)])
  {
    assert Placed(s, p);
  }

  lemma Identity(o: Vec, before: seq<real>, after: seq<real>)
    requires |before| == |after| >= BLOCK && after[..BLOCK] == before[..BLOCK]
    ensures Transform(o, after, 0) == Transform(o, before, 0)
  {
    assert forall i :: 0 <= i < BLOCK ==> after[i] == after[..BLOCK][i] == before[..BLOCK][i] == before[i];
  }

  /** Every vertex of the last build of a mesh and level is where the game alone would have put it,
      whatever the bones are doing, if its second weight is not negative. */
  lemma PositionsStay(s: Skin, a: nat, mesh: nat, lod: int, before: seq<real>, after: seq<real>, count: nat)
    requires Inv(s) && AllSeen(s) && a in s.owner && s.owner[a] == PoseKey(mesh, lod, 0)
    requires BLOCK * count + BLOCK <= |before| && Converted(s.bindPoses, mesh, lod, before, after, count)
    requires Addresses(s.written[a].code0, count) && Addresses(s.written[a].code1, count) && s.written[a].w1 >= 0.0
    ensures 4 * s.written[a].code0 + 12 <= |before| && 4 * s.written[a].code1 + 12 <= |before|
    ensures a in s.vertices && s.vertices[a].code0 == s.written[a].code0 && s.vertices[a].code1 == s.written[a].code1
    ensures Position(s.vertices[a], after) == Position(s.written[a], before)
  {
    hide Inv, AllSeen, Transform, Converted, Addresses, Weighed;
    Weights(s, a);
    InRange(s.written[a].code0, count, |before|);
    InRange(s.written[a].code1, count, |before|);
    SameSize(s.bindPoses, mesh, lod, before, after, count);
    var w := s.written[a];
    InfluenceStays(s, a, false, mesh, lod, before, after, count);
    if w.w1 > 0.0 {
      InfluenceStays(s, a, true, mesh, lod, before, after, count);
    } else {
      NoWeight(Transform(s.vertices[a].off1, after, w.code1), Transform(w.off1, before, w.code1));
    }
  }

  lemma SameSize(poses: map<nat, Matrix>, mesh: nat, lod: int, before: seq<real>, after: seq<real>, count: nat)
    requires BLOCK * count + BLOCK <= |before| && Converted(poses, mesh, lod, before, after, count)
    ensures |after| == |before|
  {
  }

  lemma NoWeight(u: Vec, v: Vec)
    ensures Weighed(0.0, u) == Weighed(0.0, v)
  {
  }

  lemma Weights(s: Skin, a: nat)
    requires Inv(s) && a in s.owner
    ensures a in s.vertices && a in s.written
    ensures s.vertices[a].w0 == s.written[a].w0 && s.vertices[a].w1 == s.written[a].w1
    ensures s.vertices[a].code0 == s.written[a].code0 && s.vertices[a].code1 == s.written[a].code1
  {
  }

  /** The way back from the slot's bind pose, if it has one, makes no difference to the offset. */
  ghost predicate Indifferent(poses: map<nat, Matrix>, key: nat, o: Vec) {
    key !in poses || Apply(o, RigidInverse(poses[key])) == o
  }

  /** With a negative second weight the offset is left alone though the constant may be converted. The
      vertex still stays where it was, whatever rigid motion the bone makes, if and only if the way back
      from the bind pose makes no difference to that offset. */
  lemma NegativeWeight(s: Skin, a: nat, mesh: nat, lod: int, before: seq<real>, after: seq<real>, count: nat)
    requires Inv(s) && AllSeen(s) && a in s.owner && s.owner[a] == PoseKey(mesh, lod, 0)
    requires BLOCK * count + BLOCK <= |before| && Converted(s.bindPoses, mesh, lod, before, after, count)
    requires Addresses(s.written[a].code0, count) && Addresses(s.written[a].code1, count)
    requires s.written[a].w1 < 0.0 && s.written[a].code1 >= 3
    ensures 4 * s.written[a].code0 + 12 <= |before| && 4 * s.written[a].code1 + 12 <= |before|
    ensures a in s.vertices && s.vertices[a].code0 == s.written[a].code0 && s.vertices[a].code1 == s.written[a].code1
    ensures BLOCK * SlotOf(s.written[a].code1) + 2 * BLOCK <= |before|
    ensures var slot := SlotOf(s.written[a].code1);
      var still := Indifferent(s.bindPoses, PoseKey(mesh, lod, slot), s.written[a].off1);
      && (still ==> Position(s.vertices[a], after) == Position(s.written[a], before))
      && (Rigid(MatrixIn(before, slot)) ==> (Position(s.vertices[a], after) == Position(s.written[a], before) <==> still))
  {
    var w := s.written[a];
    var slot := SlotOf(w.code1);
    InRange(w.code1, count, |before|);
    SlotRegisters(w.off1, before, w.code1);
    SlotMoves(s.bindPoses, PoseKey(mesh, lod, slot), MatrixIn(before, slot), w.off1);
    hide Indifferent, Rigid, Apply, ConstantFor;
    NegativeWeightNow(s, a, mesh, lod, before, after, count);
  }

  /** An offset under the converted constant and under the constant as it was. */
  lemma SlotMoves(poses: map<nat, Matrix>, key: nat, current: Matrix, o: Vec)
    ensures Indifferent(poses, key, o) ==> Apply(o, ConstantFor(poses, key, current)) == Apply(o, current)
    ensures Rigid(current) ==> (Apply(o, ConstantFor(poses, key, current)) == Apply(o, current) <==> Indifferent(poses, key, o))
  {
    hide Rigid, Apply, RigidInverse;
    if key in poses {
      var back := Apply(o, RigidInverse(poses[key]));
      MultiplyMoves(o, RigidInverse(poses[key]), current);
      if Rigid(current) && Apply(back, current) == Apply(o, current) {
        InverseUndoes(back, current);
        InverseUndoes(o, current);
      }
    }
  }

  /** The same for the frame at hand. */
  lemma NegativeWeightNow(s: Skin, a: nat, mesh: nat, lod: int, before: seq<real>, after: seq<real>, count: nat)
    requires Inv(s) && AllSeen(s) && a in s.owner && s.owner[a] == PoseKey(mesh, lod, 0)
    requires BLOCK * count + BLOCK <= |before| && Converted(s.bindPoses, mesh, lod, before, after, count)
    requires Addresses(s.written[a].code0, count) && Addresses(s.written[a].code1, count)
    requires s.written[a].w1 < 0.0 && s.written[a].code1 >= 3
    ensures 4 * s.written[a].code0 + 12 <= |before| && 4 * s.written[a].code1 + 12 <= |before|
    ensures a in s.vertices && s.vertices[a].code0 == s.written[a].code0 && s.vertices[a].code1 == s.written[a].code1
    ensures BLOCK * SlotOf(s.written[a].code1) + 2 * BLOCK <= |before|
    ensures var slot := SlotOf(s.written[a].code1);
      var current := MatrixIn(before, slot);
      var o := s.written[a].off1;
      Position(s.vertices[a], after) == Position(s.written[a], before)
      <==> Apply(o, ConstantFor(s.bindPoses, PoseKey(mesh, lod, slot), current)) == Apply(o, current)
  {
    var w := s.written[a];
    InRange(w.code0, count, |before|);
    InRange(w.code1, count, |before|);
    Weights(s, a);
    InfluenceStays(s, a, false, mesh, lod, before, after, count);
    assert Placed(s, Place(a, true));
    SlotRegisters(w.off1, before, w.code1);
    SlotRegisters(w.off1, after, w.code1);
    hide Inv, AllSeen, Transform, Placed, MatrixIn, Apply, ConstantFor;
    WeighedApart(w.w1, Transform(w.off1, after, w.code1), Transform(w.off1, before, w.code1));
  }

  lemma WeighedApart(w: real, u: Vec, v: Vec)
    requires w != 0.0
    ensures Weighed(w, u) == Weighed(w, v) <==> u == v
  {
    if Weighed(w, u) == Weighed(w, v) {
      assert (u.x - v.x) * w == 0.0 && (u.y - v.y) * w == 0.0 && (u.z - v.z) * w == 0.0;
      NoFactor(u.x - v.x, w);
      NoFactor(u.y - v.y, w);
      NoFactor(u.z - v.z, w);
    }
  }

  // ---- One that moves.

  const ORIGIN: Vec := Vec(0.0, 0.0, 0.0)

  /** A bone bound one step to the side. */
  const ASIDE: Matrix := Shift(Vec(1.0, 0.0, 0.0))

  /** A vertex at the origin that counts its second bone negatively. */
  const ODD: Vertex := Vertex(ORIGIN, ORIGIN, 2.0, -1.0, 0, 3, Vec(0.0, 0.0, 1.0))

  /** The identity block and one bone that has not moved. */
  const STILL: seq<real> := [1.0, 0.0, 0.0, 0.0, 0.0, 1.0, 0.0, 0.0, 0.0, 0.0, 1.0, 0.0,
                             1.0, 0.0, 0.0, 0.0, 0.0, 1.0, 0.0, 0.0, 0.0, 0.0, 1.0, 0.0]

  /** The same after the conversion: the bone is one step back. */
  const MOVED: seq<real> := [1.0, 0.0, 0.0, 0.0, 0.0, 1.0, 0.0, 0.0, 0.0, 0.0, 1.0, 0.0,
                             1.0, 0.0, 0.0, -1.0, 0.0, 1.0, 0.0, 0.0, 0.0, 0.0, 1.0, 0.0]

  /** That vertex alone, after the bone was bound and the build of another mesh began. */
  ghost predicate OddSkin(s: Skin) {
    && s.bindPoses == map[0 := ASIDE] && s.fits == map[] && s.group == 0x10000
    && s.vertices == s.written == map[0 := ODD] && s.owner == map[0 := 0]
    && s.seen == {Place(0, false), Place(0, true)}
  }

  lemma OddSkinHolds(s: Skin)
    requires OddSkin(s)
    ensures Inv(s) && AllSeen(s)
  {
    hide Owned, AllPlaced, FitOk, Rigid, IsUsed, AllSeen, Shift;
    OddPlaced(s);
    ShiftRigid(Vec(1.0, 0.0, 0.0));
    assert FitsOk(s);
    assert PosesOk(s);
    OddSeen(s);
  }

  lemma OddSeen(s: Skin)
    requires OddSkin(s)
    ensures AllSeen(s)
  {
    forall p: Place | p.vertex in s.owner
      ensures p in s.seen
    {
      assert p == Place(0, p.second);
    }
  }

  lemma OddOwned(s: Skin)
    requires OddSkin(s)
    ensures Owned(s)
  {
  }

  lemma OddPlaced(s: Skin)
    requires OddSkin(s)
    ensures Owned(s) && AllPlaced(s)
    ensures forall p: Place :: p.vertex in s.owner ==> !IsUsed(s, p)
  {
    OddOwned(s);
    hide Owned;
    forall p: Place | p.vertex in s.owner
      ensures !IsUsed(s, p) && Placed(s, p)
    {
      assert s.written[p.vertex] == ODD && s.vertices[p.vertex] == ODD;
    }
  }

  function Shift(t: Vec): Matrix {
    Matrix(Vec(1.0, 0.0, 0.0), Vec(0.0, 1.0, 0.0), Vec(0.0, 0.0, 1.0), t)
  }

  lemma Factor(a: real, b: real)
    ensures a == 1.0 ==> a * b == b
    ensures a == 0.0 ==> a * b == 0.0
  {
  }

  lemma DotAlong(a: Vec, b: Vec)
    ensures a.x == 1.0 && a.y == 0.0 && a.z == 0.0 ==> Dot(a, b) == b.x
    ensures a.x == 0.0 && a.y == 1.0 && a.z == 0.0 ==> Dot(a, b) == b.y
  {
    Factor(a.x, b.x);
    Factor(a.y, b.y);
    Factor(a.z, b.z);
  }

  lemma CrossOfAxes(a: Vec, b: Vec)
    requires a.x == 1.0 && a.y == 0.0 && a.z == 0.0 && b.x == 0.0 && b.y == 1.0 && b.z == 0.0
    ensures Cross(a, b) == Vec(0.0, 0.0, 1.0)
  {
    Factor(a.x, b.y);
    Factor(a.x, b.z);
    Factor(a.y, b.z);
    Factor(a.y, b.x);
    Factor(a.z, b.x);
    Factor(a.z, b.y);
  }

  lemma ShiftRigid(t: Vec)
    ensures Rigid(Shift(t))
  {
    hide Dot, Cross;
    var m := Shift(t);
    DotAlong(m.r0, m.r0);
    DotAlong(m.r1, m.r1);
    DotAlong(m.r0, m.r1);
    CrossOfAxes(m.r0, m.r1);
  }

  lemma ShiftTurns(v: Vec, m: Matrix)
    requires m.(t := ORIGIN) == Shift(ORIGIN)
    ensures Rotate(v, m) == v
  {
    Factor(m.r0.x, v.x);
    Factor(m.r1.x, v.y);
    Factor(m.r2.x, v.z);
    Factor(m.r0.y, v.x);
    Factor(m.r1.y, v.y);
    Factor(m.r2.y, v.z);
    Factor(m.r0.z, v.x);
    Factor(m.r1.z, v.y);
    Factor(m.r2.z, v.z);
  }

  lemma AsideInverse()
    ensures RigidInverse(ASIDE) == Shift(Vec(-1.0, 0.0, 0.0))
  {
    hide Rotate;
    ShiftTurns(ASIDE.t, Shift(ORIGIN));
  }

  lemma ShiftBack()
    ensures Apply(ORIGIN, RigidInverse(ASIDE)) == Vec(-1.0, 0.0, 0.0)
  {
    hide Rotate, RigidInverse;
    AsideInverse();
    ShiftTurns(ORIGIN, RigidInverse(ASIDE));
  }

  lemma StillIdentity()
    ensures |STILL| == 24 && MatrixIn(STILL, 0) == Shift(ORIGIN)
  {
  }

  lemma OddFacts(s: Skin)
    requires OddSkin(s)
    ensures 0 in s.owner && 0 in s.written && 0 in s.vertices && s.written[0] == s.vertices[0] == ODD && s.owner[0] == 0
    ensures 0 in s.bindPoses && s.bindPoses[0] == ASIDE
  {
  }

  lemma OddCodes()
    ensures ODD.code0 == 0 && ODD.code1 == 3
    ensures ODD.w1 < 0.0 && ODD.off1 == ORIGIN
  {
  }

  lemma OddKeys()
    ensures SlotOf(3) == 0 && Addresses(0, 1) && Addresses(3, 1) && PoseKey(0, 0, 0) == 0
  {
  }

  lemma Aside()
    ensures ORIGIN != Vec(-1.0, 0.0, 0.0)
  {
  }

  lemma NotIndifferent(poses: map<nat, Matrix>, key: nat, o: Vec, back: Vec)
    requires key in poses && Apply(o, RigidInverse(poses[key])) == back && back != o
    ensures !Indifferent(poses, key, o)
  {
    hide Apply, RigidInverse;
  }

  lemma OddMoves(s: Skin, before: seq<real>, after: seq<real>)
    requires OddSkin(s) && |before| == 24 && MatrixIn(before, 0) == Shift(ORIGIN) && Converted(s.bindPoses, 0, 0, before, after, 1)
    ensures |after| == 24 && ODD.code0 == 0 && ODD.code1 == 3 && Position(ODD, after) != Position(ODD, before)
  {
    hide *;
    OddSkinHolds(s);
    ShiftRigid(ORIGIN);
    OddFacts(s);
    OddCodes();
    OddKeys();
    Aside();
    ShiftBack();
    NotIndifferent(s.bindPoses, 0, ORIGIN, Vec(-1.0, 0.0, 0.0));
    SameLength(s.bindPoses, before, after);
    assert BLOCK * 1 + BLOCK <= |before|;
    NegativeWeight(s, 0, 0, 0, before, after, 1);
  }

  lemma SameLength(poses: map<nat, Matrix>, before: seq<real>, after: seq<real>)
    requires |before| == 24 && Converted(poses, 0, 0, before, after, 1)
    ensures |after| == 24 && BLOCK == 12
  {
  }

  lemma MovedMatrix()
    ensures |MOVED| == 24 && MatrixIn(MOVED, 0) == Shift(Vec(-1.0, 0.0, 0.0))
  {
  }

  lemma DeltaIs()
    ensures Delta(ASIDE, Shift(ORIGIN)) == Shift(Vec(-1.0, 0.0, 0.0))
  {
    hide Rotate, RigidInverse;
    AsideInverse();
    Unshifted(Vec(-1.0, 0.0, 0.0));
  }

  lemma Unshifted(t: Vec)
    ensures Multiply(Shift(t), Shift(ORIGIN)) == Shift(t)
  {
    hide Rotate;
    var m := Shift(t);
    ShiftTurns(m.r0, Shift(ORIGIN));
    ShiftTurns(m.r1, Shift(ORIGIN));
    ShiftTurns(m.r2, Shift(ORIGIN));
    ShiftTurns(t, Shift(ORIGIN));
  }

  lemma SameRest()
    ensures |STILL| == |MOVED| == 24 && MOVED[..12] == STILL[..12] && MOVED[24..] == STILL[24..]
  {
    assert forall i :: 0 <= i < 12 ==> MOVED[i] == STILL[i];
  }

  lemma ConvertedOne(poses: map<nat, Matrix>, before: seq<real>, after: seq<real>)
    requires |before| == |after| == 24 && after[..12] == before[..12] && after[24..] == before[24..]
    requires 0 in poses && MatrixIn(after, 0) == Delta(poses[0], MatrixIn(before, 0))
    ensures Converted(poses, 0, 0, before, after, 1)
  {
    hide Delta, MatrixIn, PoseKey;
    OddKeys();
  }

  /** It is drawn at one place by the game's constants and at another by the converted ones. */
  lemma NegativeWeightMoves() returns (s: Skin)
    ensures Inv(s) && AllSeen(s) && s.bindPoses == map[0 := ASIDE] && 0 in s.owner && s.owner[0] == PoseKey(0, 0, 0)
    ensures s.written[0] == ODD && s.vertices[0] == ODD && |STILL| == |MOVED| == 24
    ensures Converted(s.bindPoses, 0, 0, STILL, MOVED, 1)
    ensures Position(s.vertices[0], MOVED) != Position(s.written[0], STILL)
  {
    hide *;
    s := OddOne();
    OddSkinHolds(s);
    OddFacts(s);
    OddKeys();
    StillIdentity();
    MovedMatrix();
    DeltaIs();
    SameRest();
    ConvertedOne(s.bindPoses, STILL, MOVED);
    OddMoves(s, STILL, MOVED);
  }

  lemma OddOne() returns (s: Skin)
    ensures OddSkin(s) && s.bindPoses == map[0 := ASIDE]
  {
    s := Skin(map[0 := ASIDE], map[], 0x10000, 0, map[0 := ODD], map[0 := ODD], map[0 := 0], {Place(0, false), Place(0, true)}, map[]);
  }
}
