/** `DotParticleSpawner`: a pool of particle entities that move between a FIFO
    queue of available particles and a set of active ones, together with the
    origin table the particles are tagged against.

    The ECS world is the `World` of module `Entities`; rendering is reduced to
    the `DisableRendering` tag. The random values of one emission are a
    parameter `draw`: `draw(i)` holds what `Random` yields for the `i`-th
    particle of the emission.
 */
module Spawner {
  import opened Types
  import opened Entities
  import opened Origins
  import opened ColorThemes

  /** The serialized default of `_poolSize`. */
  const DefaultPoolSize: nat := 1000

  /** A `Vector2` used as a `[x, y]` sampling range. */
  datatype Range2 = Range2(x: real, y: real)

  /** `EmitParameter`. */
  datatype EmitParameter = EmitParameter(
    count: int,
    radius: real,
    scale: real,
    rotateSpeedRange: Range2,
    amplitudeRange: Range2,
    frequencyRange: Range2,
    colorTheme: ColorTheme)

  /** The random values drawn for one particle: its spawn offset (the
      normalized random direction times the radius), the three values drawn
      from the parameter ranges, and the colour roll. */
  datatype Draw = Draw(offset: Vec3, rotateSpeed: real, amplitude: real, frequency: real, colorRoll: int)

  /** `EmittedParticleInfo`; `particles` is `None` for the struct's default
      value, whose list reference is null. */
  datatype EmittedParticleInfo = EmittedParticleInfo(index: int, particles: Option<seq<Entity>>)

  datatype SpawnerState = SpawnerState(
    world: World,
    available: seq<Entity>,    // `_availableParticles`, front first
    active: set<Entity>,       // `_activeParticles`
    origins: OriginManager)    // `_emitterOriginManager`

  /** The particles of the pool are exactly the entities created after the
      origin table's singleton entity. */
  predicate IsParticle(s: SpawnerState, e: Entity)
  {
    s.origins.entity.id < e.id < s.world.nextId
  }

  /** Pool accounting: every particle is in exactly one of the available
      queue (once) and the active set, nothing else is, and the origin table
      is valid. */
  ghost predicate PoolValid(s: SpawnerState)
  {
    && Valid(s.origins)
    && s.origins.entity.id < s.world.nextId
    && NoDup(s.available)
    && (forall e :: e in s.available ==> e !in s.active)
    && (forall e :: e in s.available || e in s.active <==> IsParticle(s, e))
  }

  // ---------------------------------------------------------------------------
  // Creating particles and growing the pool

  /** `CreateEntity`: a new entity with zeroed `MeshInstanceData` and
      `ColorData`, not rendered. */
  function CreateEntity(w: World): (r: Created)
    ensures r.entity.id == w.nextId && r.world.nextId == w.nextId + 1
    ensures r.entity in r.world.disabled
    ensures r.entity in r.world.meshes && r.world.meshes[r.entity] == DefaultMesh
    ensures r.entity in r.world.colors && r.world.colors[r.entity] == ClearBlack
    ensures forall x :: x != r.entity ==> SameEntity(r.world, w, x)
  {
    var created := CreateBareEntity(w);
    var e := created.entity;
    var w1 := created.world.(meshes := created.world.meshes[e := DefaultMesh], colors := created.world.colors[e := ClearBlack]);
    Created(DisableEntity(w1, e), e)
  }

  /** One iteration of the `ExpandPool` loop. */
  function AddFresh(s: SpawnerState): (r: SpawnerState)
    ensures r.available == s.available + [Entity(s.world.nextId)]
    ensures r.world.nextId == s.world.nextId + 1
    ensures r.active == s.active && r.origins == s.origins
    ensures forall x: Entity :: x.id < s.world.nextId ==> SameEntity(r.world, s.world, x)
  {
    var created := CreateEntity(s.world);
    s.(world := created.world, available := s.available + [created.entity])
  }

  /** `ExpandPool`: appends `n` newly created particles to the available queue
      (none when `n` is not positive). */
  function ExpandPool(s: SpawnerState, n: int): (r: SpawnerState)
    ensures var k := if n < 0 then 0 else n;
            && r.world.nextId == s.world.nextId + k
            && |r.available| == |s.available| + k
            && r.available[..|s.available|] == s.available
            && (forall j :: |s.available| <= j < |r.available| ==>
                  r.available[j] == Entity(s.world.nextId + (j - |s.available|)))
    ensures r.active == s.active && r.origins == s.origins
    decreases n
  {
    if n <= 0 then
      s
    else
      var s1 := AddFresh(s);
      var r := ExpandPool(s1, n - 1);
      assert r.available[..|s.available|] == s.available by {
        assert r.available[..|s.available|] == r.available[..|s1.available|][..|s.available|];
      }
      assert r.available[|s.available|] == Entity(s.world.nextId) by {
        assert r.available[|s.available|] == r.available[..|s1.available|][|s.available|];
      }
      assert forall j :: |s1.available| <= j < |r.available| ==>
        r.available[j] == Entity(s.world.nextId + (j - |s.available|));
      r
  }

  /** ceil(1.5 * a) for a non-negative count `a`, computed exactly. */
  function CeilOneAndHalf(a: nat): (r: nat)
    ensures 2 * r >= 3 * a
    ensures 2 * r <= 3 * a + 1
  {
    (3 * a + 1) / 2
  }

  /** The growth rule of `Emit`: the larger of the shortfall and the amount
      that grows the available count by the factor 1.5. */
  function GrowthAmount(available: nat, count: int): (r: int)
    requires available < count
    ensures r >= count - available
    ensures r >= CeilOneAndHalf(available) - available
    ensures r == count - available || r == CeilOneAndHalf(available) - available
  {
    var needed := count - available;
    var grown := CeilOneAndHalf(available) - available;
    if needed > grown then needed else grown
  }

  /** The first statement of `Emit`: grows the pool only when fewer than
      `count` particles are available. A pool that is not short is left as
      it is. A short pool with `a` available gains `max(count - a,
      ceil(1.5 a) - a)` newly created particles, appended behind the existing
      queue, so that at least `count` and at least 1.5 times `a` are
      available; the active set and the origin table are never touched. */
  function Grow(s: SpawnerState, count: int): (r: SpawnerState)
    ensures |s.available| >= count ==> r == s
    ensures |r.available| >= count && |r.available| >= |s.available|
    ensures r.available[..|s.available|] == s.available
    ensures forall j :: |s.available| <= j < |r.available| ==>
              r.available[j] == Entity(s.world.nextId + (j - |s.available|))
    ensures r.active == s.active && r.origins == s.origins
    ensures r.world.nextId == s.world.nextId + (|r.available| - |s.available|)
    ensures |s.available| < count ==>
              && 2 * |r.available| >= 3 * |s.available|
              && (|r.available| == count || |r.available| == CeilOneAndHalf(|s.available|))
  {
    if |s.available| < count then ExpandPool(s, GrowthAmount(|s.available|, count)) else s
  }

  lemma AddFreshPreservesValid(s: SpawnerState)
    requires PoolValid(s)
    ensures PoolValid(AddFresh(s))
  {
    var r := AddFresh(s);
    var e := Entity(s.world.nextId);
    assert !IsParticle(s, e);
    assert e !in s.available && e !in s.active;
    forall x ensures x in r.available || x in r.active <==> IsParticle(r, x) {
      assert x in r.available <==> x in s.available || x == e;
    }
    assert NoDup(r.available) by {
      forall i, j | 0 <= i < j < |r.available| ensures r.available[i] != r.available[j] {
        if j == |s.available| {
          assert r.available[i] == s.available[i];
          assert s.available[i] in s.available;
        }
      }
    }
  }

  /** Growing by `n` is one fresh particle followed by growing by `n - 1`. */
  lemma ExpandStep(s: SpawnerState, n: int)
    requires n > 0
    ensures ExpandPool(s, n) == ExpandPool(AddFresh(s), n - 1)
  {
  }

  lemma {:induction false} ExpandPreservesValid(s: SpawnerState, n: int)
    requires PoolValid(s)
    ensures PoolValid(ExpandPool(s, n))
    decreases n
  {
    if n > 0 {
      AddFreshPreservesValid(s);
      ExpandPreservesValid(AddFresh(s), n - 1);
      ExpandStep(s, n);
    }
  }

  /** Growth leaves every earlier entity as it was and creates the new
      particles hidden. */
  lemma {:induction false} ExpandKeepsEntities(s: SpawnerState, n: int)
    ensures var r := ExpandPool(s, n);
            && (forall x: Entity :: x.id < s.world.nextId ==> SameEntity(r.world, s.world, x))
            && (forall j :: |s.available| <= j < |r.available| ==> r.available[j] in r.world.disabled)
    decreases n
  {
    if n > 0 {
      var s1 := AddFresh(s);
      ExpandKeepsEntities(s1, n - 1);
      var r := ExpandPool(s1, n - 1);
      assert ExpandPool(s, n) == r;
      assert Entity(s.world.nextId) in s1.world.disabled;
      assert SameEntity(r.world, s1.world, Entity(s.world.nextId));
      forall j | |s.available| <= j < |r.available| ensures r.available[j] in r.world.disabled {
        if j == |s.available| {
          assert r.available[j] == Entity(s.world.nextId);
        }
      }
    }
  }

  // ---------------------------------------------------------------------------
  // Emitting

  /** The `MeshInstanceData` fields `UpdateEntity` writes for one particle. */
  function TagFor(params: EmitParameter, origin: int, d: Draw): MeshInstanceData
  {
    MeshInstanceData(origin, d.offset, Uniform(params.scale), d.amplitude, d.frequency, d.rotateSpeed)
  }

  /** The `ColorData` value `UpdateEntity` writes: a palette colour, opaque. */
  function ColorFor(params: EmitParameter, d: Draw): (c: Color)
    ensures c.a == 1.0
    ensures exists p :: p in params.colorTheme.colors && c == Color(p.r, p.g, p.b, 1.0)
  {
    var p := GetRandomNext(params.colorTheme, d.colorRoll);
    Color(p.r, p.g, p.b, 1.0)
  }

  /** `UpdateEntity`: tags a particle with its origin index, scale and drawn values. */
  function UpdateEntity(w: World, e: Entity, params: EmitParameter, origin: int, d: Draw): (r: World)
    ensures e in r.meshes && r.meshes[e].originIndex == origin && r.meshes[e].scale == Uniform(params.scale)
    ensures e in r.colors
    ensures r.nextId == w.nextId && r.disabled == w.disabled
    ensures forall x :: x != e ==> SameEntity(r, w, x)
  {
    w.(meshes := w.meshes[e := TagFor(params, origin, d)], colors := w.colors[e := ColorFor(params, d)])
  }

  /** Every particle of `ps` is rendered and tagged with `origin` and the
      uniform scale `scale`. */
  ghost predicate Enabled(w: World, ps: seq<Entity>, origin: int, scale: real)
  {
    forall e :: e in ps ==>
      && e !in w.disabled
      && e in w.meshes
      && w.meshes[e].originIndex == origin
      && w.meshes[e].scale == Uniform(scale)
  }

  /** Every entity outside `ps` is recorded alike in `w1` and `w0`. */
  ghost predicate Untouched(w1: World, w0: World, ps: seq<Entity>)
  {
    forall x :: x !in ps ==> SameEntity(w1, w0, x)
  }

  /** One pass of the dequeue loop: takes the front particle off the queue,
      enables it, tags it with `origin` and the drawn values `d`, and marks it
      active. */
  function Dequeue(s: SpawnerState, origin: int, params: EmitParameter, d: Draw): (r: SpawnerState)
    requires |s.available| > 0
    ensures Enabled(r.world, [s.available[0]], origin, params.scale)
    ensures Tagged(r.world, s.available[0], params, origin, d)
    ensures Untouched(r.world, s.world, [s.available[0]])
    ensures r.available == s.available[1..] && r.active == s.active + {s.available[0]}
    ensures r.origins == s.origins && r.world.nextId == s.world.nextId
  {
    var e := s.available[0];
    var w := UpdateEntity(EnableEntity(s.world, e), e, params, origin, d);
    assert Untouched(w, s.world, [e]) by {
      forall x | x !in [e] ensures SameEntity(w, s.world, x) {
        assert x != e;
      }
    }
    s.(world := w, available := s.available[1..], active := s.active + {e})
  }

  /** The state after dequeuing and the particles dequeued, in order. */
  datatype Acquired = Acquired(state: SpawnerState, particles: seq<Entity>)

  /** The loop of `Emit`: dequeues `n` particles from the front of the queue,
      enabling, tagging and activating each; particle `k` uses `draw(i + k)`. */
  function Acquire(s: SpawnerState, n: nat, origin: int, params: EmitParameter, draw: nat -> Draw, i: nat)
    : (r: Acquired)
    requires n <= |s.available|
    ensures r.particles == s.available[..n]
    ensures r.state.available == s.available[n..]
    ensures r.state.active == s.active + Elems(r.particles)
    ensures r.state.origins == s.origins && r.state.world.nextId == s.world.nextId
    decreases n
  {
    if n == 0 then
      Acquired(s, [])
    else
      var e := s.available[0];
      var s1 := Dequeue(s, origin, params, draw(i));
      var rest := Acquire(s1, n - 1, origin, params, draw, i + 1);
      PrefixCons(s.available, n);
      SuffixCons(s.available, n);
      ElemsCons(e, rest.particles);
      Acquired(rest.state, [e] + rest.particles)
  }

  /** Every dequeued particle ends up rendered and tagged with `origin` and
      the emission's scale, and no other entity changes. */
  lemma {:induction false} AcquireFrames(s: SpawnerState, n: nat, origin: int, params: EmitParameter, draw: nat -> Draw, i: nat)
    requires n <= |s.available|
    ensures Enabled(Acquire(s, n, origin, params, draw, i).state.world, s.available[..n], origin, params.scale)
    ensures Untouched(Acquire(s, n, origin, params, draw, i).state.world, s.world, s.available[..n])
    decreases n
  {
    if n > 0 {
      var e := s.available[0];
      var s1 := Dequeue(s, origin, params, draw(i));
      var rest := Acquire(s1, n - 1, origin, params, draw, i + 1);
      AcquireFrames(s1, n - 1, origin, params, draw, i + 1);
      PrefixCons(s.available, n);
      ConsEnabled(s1.world, rest.state.world, e, s1.available[..n - 1], origin, params.scale);
      ConsSame(s.world, s1.world, rest.state.world, e, s1.available[..n - 1]);
      assert Acquire(s, n, origin, params, draw, i).state == rest.state;
    }
  }

  /** A particle enabled and tagged before the rest of the loop runs is still
      so afterwards: either the rest leaves it alone or enables and tags it
      again. */
  lemma ConsEnabled(w0: World, w1: World, e: Entity, tail: seq<Entity>, origin: int, scale: real)
    requires Enabled(w0, [e], origin, scale)
    requires Enabled(w1, tail, origin, scale)
    requires Untouched(w1, w0, tail)
    ensures Enabled(w1, [e] + tail, origin, scale)
  {
    forall x | x in [e] + tail
      ensures x !in w1.disabled && x in w1.meshes
      ensures w1.meshes[x].originIndex == origin && w1.meshes[x].scale == Uniform(scale)
    {
      if x !in tail {
        assert x == e && SameEntity(w1, w0, x);
      }
    }
  }

  /** Entities untouched by the first step and by the rest of the loop are
      untouched by the whole loop. */
  lemma ConsSame(w: World, w0: World, w1: World, e: Entity, tail: seq<Entity>)
    requires Untouched(w0, w, [e])
    requires Untouched(w1, w0, tail)
    ensures Untouched(w1, w, [e] + tail)
  {
    forall x | x !in [e] + tail ensures SameEntity(w1, w, x) {
      assert x !in [e] && x !in tail;
    }
  }

  /** Entity `e` carries the `MeshInstanceData` and colour drawn as `d`. */
  ghost predicate Tagged(w: World, e: Entity, params: EmitParameter, origin: int, d: Draw)
  {
    && e in w.meshes && w.meshes[e] == TagFor(params, origin, d)
    && e in w.colors && w.colors[e] == ColorFor(params, d)
  }

  /** Particle `k` of `ps` carries the values drawn as `draw(i + k)`. */
  ghost predicate TaggedFrom(w: World, ps: seq<Entity>, params: EmitParameter, origin: int, draw: nat -> Draw, i: nat)
  {
    forall k :: 0 <= k < |ps| ==> Tagged(w, ps[k], params, origin, draw(i + k))
  }

  /** When the dequeued particles are distinct, particle `k` carries the tag
      and colour drawn for it, `draw(i + k)`. */
  lemma {:induction false} AcquireTags(s: SpawnerState, n: nat, origin: int, params: EmitParameter, draw: nat -> Draw, i: nat)
    requires n <= |s.available|
    requires NoDup(s.available[..n])
    ensures var r := Acquire(s, n, origin, params, draw, i);
            TaggedFrom(r.state.world, r.particles, params, origin, draw, i)
    decreases n
  {
    if n > 0 {
      var e := s.available[0];
      var s1 := Dequeue(s, origin, params, draw(i));
      var rest := Acquire(s1, n - 1, origin, params, draw, i + 1);
      var front := s.available[..n];
      NoDupTail(front);
      assert s1.available[..n - 1] == front[1..];
      AcquireTags(s1, n - 1, origin, params, draw, i + 1);
      AcquireFrames(s1, n - 1, origin, params, draw, i + 1);
      assert e !in rest.particles;
      assert SameEntity(rest.state.world, s1.world, e);
      assert Tagged(rest.state.world, e, params, origin, draw(i));
      ShiftTags(rest.state.world, rest.particles, e, params, origin, draw, i);
      assert Acquire(s, n, origin, params, draw, i) == Acquired(rest.state, [e] + rest.particles);
    }
  }

  /** Prepending a particle tagged with `draw(i)` to particles tagged from
      `draw(i + 1)` on gives particles tagged from `draw(i)` on. */
  lemma ShiftTags(w: World, tail: seq<Entity>, e: Entity, params: EmitParameter, origin: int, draw: nat -> Draw, i: nat)
    requires Tagged(w, e, params, origin, draw(i))
    requires TaggedFrom(w, tail, params, origin, draw, i + 1)
    ensures TaggedFrom(w, [e] + tail, params, origin, draw, i)
  {
    forall k | 0 < k < |tail| + 1 ensures Tagged(w, ([e] + tail)[k], params, origin, draw(i + k)) {
      var j := k - 1;
      assert ([e] + tail)[k] == tail[j];
      assert Tagged(w, tail[j], params, origin, draw(i + 1 + j));
      assert i + 1 + j == i + k;
    }
  }

  /** The number of particles an emission asks for: `Count`, or none when it
      is negative (the dequeue loop then does not run). */
  function Requested(params: EmitParameter): nat
  {
    if params.count < 0 then 0 else params.count
  }

  /** The state after an emission and the `EmittedParticleInfo` it returns. */
  datatype Emitted = Emitted(state: SpawnerState, info: EmittedParticleInfo)

  /** `Emit`: grows the pool if short, registers the anchor, then dequeues the
      requested particles and tags them with the index the registration
      returned, even when that index is `NullIndex`. */
  function Emit(s: SpawnerState, anchor: Anchor, params: EmitParameter, draw: nat -> Draw)
    : (r: Emitted)
    ensures var g := Grow(s, params.count);
            var n := Requested(params);
            && r.info.particles.Some?
            && |r.info.particles.value| == n
            && r.info.particles.value == g.available[..n]
            && r.state.available == g.available[n..]
            && |r.state.available| == |g.available| - n
            && r.state.active == s.active + Elems(r.info.particles.value)
    ensures r.info.index == if |s.origins.available| == 0 then NullIndex else s.origins.available[0]
    ensures r.state.origins == AddOrigin(s.origins, anchor).table
    ensures r.state.world.nextId == Grow(s, params.count).world.nextId
    ensures Enabled(r.state.world, r.info.particles.value, r.info.index, params.scale)
  {
    var g := Grow(s, params.count);
    var added := AddOrigin(g.origins, anchor);
    var acquired := Acquire(g.(origins := added.table), Requested(params), added.index, params, draw, 0);
    AcquireFrames(g.(origins := added.table), Requested(params), added.index, params, draw, 0);
    Emitted(acquired.state, EmittedParticleInfo(added.index, Some(acquired.particles)))
  }

  /** On a valid pool, an emission hands out distinct particles that were not
      active, each tagged with its own drawn values, and keeps the pool valid. */
  lemma EmitPreservesPool(s: SpawnerState, anchor: Anchor, params: EmitParameter, draw: nat -> Draw)
    requires PoolValid(s)
    ensures var r := Emit(s, anchor, params, draw);
            var ps := r.info.particles.value;
            && PoolValid(r.state)
            && NoDup(ps)
            && Elems(ps) !! s.active
            && TaggedFrom(r.state.world, ps, params, r.info.index, draw, 0)
  {
    var g := Grow(s, params.count);
    if |s.available| < params.count {
      ExpandPreservesValid(s, GrowthAmount(|s.available|, params.count));
    }
    assert PoolValid(g);
    AddOriginPreservesValid(g.origins, anchor);
    var added := AddOrigin(g.origins, anchor);
    var g1 := g.(origins := added.table);
    assert PoolValid(g1);
    var n := Requested(params);
    var acquired := Acquire(g1, n, added.index, params, draw, 0);
    assert Emit(s, anchor, params, draw) == Emitted(acquired.state, EmittedParticleInfo(added.index, Some(acquired.particles)));
    AcquirePreservesValid(g1, n, added.index, params, draw, 0);
    NoDupSplit(g1.available, n);
    AcquireTags(g1, n, added.index, params, draw, 0);
  }

  lemma AcquirePreservesValid(s: SpawnerState, n: nat, origin: int, params: EmitParameter, draw: nat -> Draw, i: nat)
    requires PoolValid(s)
    requires n <= |s.available|
    ensures var r := Acquire(s, n, origin, params, draw, i);
            PoolValid(r.state) && NoDup(r.particles) && Elems(r.particles) !! s.active
  {
    var r := Acquire(s, n, origin, params, draw, i);
    NoDupSplit(s.available, n);
    assert s.available == s.available[..n] + s.available[n..];
    forall x ensures x in r.state.available || x in r.state.active <==> IsParticle(r.state, x) {
      assert x in s.available <==> x in s.available[..n] || x in s.available[n..];
    }
  }

  /** An emission leaves every earlier entity it did not hand out as it was:
      growth does not disturb particles already issued, and their tags,
      colours and visibility survive. */
  lemma EmitLeavesOthersAlone(s: SpawnerState, anchor: Anchor, params: EmitParameter, draw: nat -> Draw, e: Entity)
    requires e.id < s.world.nextId
    ensures var r := Emit(s, anchor, params, draw);
            e !in r.info.particles.value ==> SameEntity(r.state.world, s.world, e) && (e in r.state.active <==> e in s.active)
  {
    var g := Grow(s, params.count);
    if |s.available| < params.count {
      ExpandKeepsEntities(s, GrowthAmount(|s.available|, params.count));
    }
    assert SameEntity(g.world, s.world, e);
    var added := AddOrigin(g.origins, anchor);
    AcquireFrames(g.(origins := added.table), Requested(params), added.index, params, draw, 0);
  }

  /** A full origin table does not stop an emission: the particles are still
      dequeued and activated, tagged with `NullIndex` (an index the per-frame
      update would read outside the position buffer), and the table is
      unchanged. */
  lemma EmitWhenTableFull(s: SpawnerState, anchor: Anchor, params: EmitParameter, draw: nat -> Draw)
    requires Valid(s.origins)
    requires |s.origins.active| == Capacity
    ensures var r := Emit(s, anchor, params, draw);
            && r.info.index == NullIndex
            && !(0 <= r.info.index < Capacity)
            && r.state.origins == s.origins
            && |r.info.particles.value| == Requested(params)
            && (forall e :: e in r.info.particles.value ==> e in r.state.active && r.state.world.meshes[e].originIndex == NullIndex)
  {
    SlotConservation(s.origins);
  }

  // ---------------------------------------------------------------------------
  // Returning, showing and hiding

  /** One iteration of the `ReturnParticles` loop. */
  function ReleaseOne(s: SpawnerState, e: Entity): SpawnerState
  {
    s.(world := DisableEntity(s.world, e), available := s.available + [e], active := s.active - {e})
  }

  /** The loop of `ReturnParticles`: every listed particle is disabled,
      appended to the queue and taken out of the active set, without any
      check that it was active. */
  function Release(s: SpawnerState, ps: seq<Entity>): (r: SpawnerState)
    ensures r.available == s.available + ps
    ensures r.active == s.active - Elems(ps)
    ensures r.origins == s.origins
    ensures r.world.nextId == s.world.nextId && r.world.meshes == s.world.meshes && r.world.colors == s.world.colors
    ensures forall e :: e in ps ==> e in r.world.disabled
    ensures forall e :: e !in ps ==> (e in r.world.disabled <==> e in s.world.disabled)
    decreases |ps|
  {
    if |ps| == 0 then
      s
    else
      var r := Release(ReleaseOne(s, ps[0]), ps[1..]);
      assert ps == [ps[0]] + ps[1..];
      assert Elems(ps) == {ps[0]} + Elems(ps[1..]);
      r
  }

  /** `ReturnParticles`: nothing for a null particle list; otherwise releases
      every listed particle and then unregisters the emission's origin index. */
  function ReturnParticles(s: SpawnerState, info: EmittedParticleInfo): (r: SpawnerState)
    ensures info.particles.None? ==> r == s
    ensures info.particles.Some? ==>
      && r.available == s.available + info.particles.value
      && r.active == s.active - Elems(info.particles.value)
      && r.origins == RemoveOrigin(s.origins, info.index)
      && r.world.nextId == s.world.nextId
      && (forall e :: e in info.particles.value ==> e in r.world.disabled)
  {
    match info.particles
    case None => s
    case Some(ps) =>
      var released := Release(s, ps);
      released.(origins := RemoveOrigin(released.origins, info.index))
  }

  lemma ReleasePreservesValid(s: SpawnerState, ps: seq<Entity>)
    requires PoolValid(s)
    requires NoDup(ps)
    requires forall k :: 0 <= k < |ps| ==> ps[k] in s.active
    ensures PoolValid(Release(s, ps))
  {
    var r := Release(s, ps);
    assert NoDup(r.available) by {
      forall a, b | 0 <= a < b < |r.available| ensures r.available[a] != r.available[b] {
        if b >= |s.available| {
          if a < |s.available| {
            assert r.available[a] == s.available[a];
            assert s.available[a] in s.available;
            assert r.available[b] == ps[b - |s.available|];
          } else {
            assert r.available[a] == ps[a - |s.available|];
            assert r.available[b] == ps[b - |s.available|];
          }
        }
      }
    }
    forall x ensures x in r.available || x in r.active <==> IsParticle(r, x) {
      assert x in r.available <==> x in s.available || x in ps;
    }
  }

  /** Returning distinct particles that are all active keeps the pool valid. */
  lemma ReturnPreservesValid(s: SpawnerState, info: EmittedParticleInfo)
    requires PoolValid(s)
    requires info.particles.Some?
    requires NoDup(info.particles.value)
    requires forall k :: 0 <= k < |info.particles.value| ==> info.particles.value[k] in s.active
    ensures PoolValid(ReturnParticles(s, info))
  {
    var released := Release(s, info.particles.value);
    ReleasePreservesValid(s, info.particles.value);
    RemoveOriginPreservesValid(released.origins, info.index);
    var r := ReturnParticles(s, info);
    assert r == released.(origins := RemoveOrigin(released.origins, info.index));
    assert r.origins.entity == released.origins.entity;
    forall x ensures x in r.available || x in r.active <==> IsParticle(r, x) {
      assert IsParticle(r, x) == IsParticle(released, x);
    }
  }

  /** Emitting and then returning that emission gives back the active set,
      the taken origin slots and the origin list, and puts the emitted
      particles at the back of the queue in emission order: the available
      queue is the post-growth queue rotated by the requested count. */
  lemma EmitThenReturn(s: SpawnerState, anchor: Anchor, params: EmitParameter, draw: nat -> Draw)
    requires PoolValid(s)
    ensures var g := Grow(s, params.count);
            var n := Requested(params);
            var emitted := Emit(s, anchor, params, draw);
            var r := ReturnParticles(emitted.state, emitted.info);
            && PoolValid(r)
            && r.available == g.available[n..] + g.available[..n]
            && |r.available| == |g.available|
            && r.active == s.active
            && r.origins.active == s.origins.active
            && r.origins.infos == s.origins.infos
            && |r.origins.available| == |s.origins.available|
  {
    var g := Grow(s, params.count);
    var n := Requested(params);
    var emitted := Emit(s, anchor, params, draw);
    var ps := emitted.info.particles.value;
    EmitPreservesPool(s, anchor, params, draw);
    assert ps == g.available[..n] && emitted.state.available == g.available[n..];
    assert emitted.state.active == s.active + Elems(ps);
    assert emitted.state.origins == AddOrigin(s.origins, anchor).table;
    ReleasePreservesValid(emitted.state, ps);
    var r := ReturnParticles(emitted.state, emitted.info);
    assert r.available == g.available[n..] + g.available[..n];
    assert r.active == s.active;
    assert emitted.info.index == AddOrigin(s.origins, anchor).index;
    RegisterThenUnregister(s.origins, anchor);
    ReturnPreservesValid(emitted.state, emitted.info);
  }

  /** Returning one emission leaves every entity outside it, and every other
      origin slot, as it was: another emission's particles and slot survive. */
  lemma ReturnLeavesOthersAlone(s: SpawnerState, info: EmittedParticleInfo, e: Entity, j: int)
    requires Valid(s.origins)
    requires info.particles.Some?
    requires e !in info.particles.value
    requires j != info.index
    ensures var r := ReturnParticles(s, info);
            && SameEntity(r.world, s.world, e)
            && (e in r.active <==> e in s.active)
            && (j in r.origins.active <==> j in s.origins.active)
            && (j in IndexSet(r.origins.infos) <==> j in IndexSet(s.origins.infos))
  {
    var r := ReturnParticles(s, info);
    if info.index in IndexSet(s.origins.infos) {
      var k :| FirstAt(s.origins.infos, info.index, k) && r.origins.infos == RemoveAt(s.origins.infos, k);
      RemoveAtIndexSet(s.origins.infos, k);
    }
  }

  /** Returning the same emission twice appends its particles to the queue
      twice, so the queue holds a particle twice and pool accounting is broken. */
  lemma DoubleReturnBreaksDistinctness(s: SpawnerState, info: EmittedParticleInfo)
    requires info.particles.Some? && |info.particles.value| > 0
    ensures var r := ReturnParticles(ReturnParticles(s, info), info);
            && !NoDup(r.available)
            && !PoolValid(r)
  {
    var ps := info.particles.value;
    var r := ReturnParticles(ReturnParticles(s, info), info);
    assert r.available == s.available + ps + ps;
    var i := |s.available|;
    var j := |s.available| + |ps|;
    assert r.available[i] == ps[0] == r.available[j];
  }

  /** Returning an emission whose origin index has since been handed to
      another emission unregisters that other emission's slot. */
  lemma StaleReturnFreesReusedSlot(s: SpawnerState, info: EmittedParticleInfo)
    requires Valid(s.origins)
    requires info.particles.Some?
    requires info.index in s.origins.active
    ensures var r := ReturnParticles(s, info);
            && info.index !in r.origins.active
            && info.index in r.origins.available
  {
  }

  /** Sets visibility of every listed particle. */
  function EnableAll(w: World, ps: seq<Entity>): (r: World)
    ensures forall e :: e in ps ==> e !in r.disabled
    ensures forall e :: e !in ps ==> (e in r.disabled <==> e in w.disabled)
    ensures r.nextId == w.nextId && r.meshes == w.meshes && r.colors == w.colors
    decreases |ps|
  {
    if |ps| == 0 then w else EnableAll(EnableEntity(w, ps[0]), ps[1..])
  }

  function DisableAll(w: World, ps: seq<Entity>): (r: World)
    ensures forall e :: e in ps ==> e in r.disabled
    ensures forall e :: e !in ps ==> (e in r.disabled <==> e in w.disabled)
    ensures r.nextId == w.nextId && r.meshes == w.meshes && r.colors == w.colors
    decreases |ps|
  {
    if |ps| == 0 then w else DisableAll(DisableEntity(w, ps[0]), ps[1..])
  }

  /** `ShowParticles`: enables every particle of the emission and touches
      nothing else; a null particle list makes the loop throw (`None`). */
  function ShowParticles(s: SpawnerState, info: EmittedParticleInfo): (r: Option<SpawnerState>)
    ensures r.None? <==> info.particles.None?
    ensures r.Some? ==>
      && r.value.available == s.available && r.value.active == s.active && r.value.origins == s.origins
      && r.value.world.meshes == s.world.meshes && r.value.world.colors == s.world.colors
      && r.value.world.nextId == s.world.nextId
      && (forall e :: e in info.particles.value ==> e !in r.value.world.disabled)
      && (forall e :: e !in info.particles.value ==> (e in r.value.world.disabled <==> e in s.world.disabled))
  {
    match info.particles
    case None => None
    case Some(ps) => Some(s.(world := EnableAll(s.world, ps)))
  }

  /** `HideParticles`: disables every particle of the emission and touches
      nothing else; a null particle list makes the loop throw (`None`). */
  function HideParticles(s: SpawnerState, info: EmittedParticleInfo): (r: Option<SpawnerState>)
    ensures r.None? <==> info.particles.None?
    ensures r.Some? ==>
      && r.value.available == s.available && r.value.active == s.active && r.value.origins == s.origins
      && r.value.world.meshes == s.world.meshes && r.value.world.colors == s.world.colors
      && r.value.world.nextId == s.world.nextId
      && (forall e :: e in info.particles.value ==> e in r.value.world.disabled)
      && (forall e :: e !in info.particles.value ==> (e in r.value.world.disabled <==> e in s.world.disabled))
  {
    match info.particles
    case None => None
    case Some(ps) => Some(s.(world := DisableAll(s.world, ps)))
  }

  /** Showing or hiding never disturbs pool accounting, and hiding after
      showing is the same as hiding alone. */
  lemma ShowHideKeepPool(s: SpawnerState, info: EmittedParticleInfo)
    requires PoolValid(s)
    requires info.particles.Some?
    ensures PoolValid(ShowParticles(s, info).value)
    ensures PoolValid(HideParticles(s, info).value)
    ensures HideParticles(ShowParticles(s, info).value, info) == HideParticles(s, info)
  {
    var shown := ShowParticles(s, info).value;
    var a := HideParticles(shown, info).value;
    var b := HideParticles(s, info).value;
    assert a.world.disabled == b.world.disabled;
  }

  // ---------------------------------------------------------------------------
  // Initialization

  /** `Initialize`: in the given world, a fresh origin table (whose singleton
      entity is the first entity created), then `poolSize` particles, all
      available and hidden; entities already in the world are untouched. */
  function Initialize(w: World, poolSize: int): (r: SpawnerState)
    ensures PoolValid(r)
    ensures r.active == {}
    ensures |r.available| == if poolSize < 0 then 0 else poolSize
    ensures forall j :: 0 <= j < |r.available| ==>
              r.available[j] == Entity(w.nextId + 1 + j) && r.available[j] in r.world.disabled
    ensures r.origins.entity == Entity(w.nextId)
    ensures r.origins.active == {} && r.origins.infos == []
    ensures |r.origins.available| == Capacity
    ensures forall i :: 0 <= i < Capacity ==> r.origins.available[i] == i
    ensures forall x: Entity :: x.id < w.nextId ==> SameEntity(r.world, w, x)
  {
    var created := NewManager(w);
    var s0 := SpawnerState(created.world, [], {}, created.table);
    assert PoolValid(s0);
    ExpandPreservesValid(s0, poolSize);
    ExpandKeepsEntities(s0, poolSize);
    ExpandPool(s0, poolSize)
  }

  /** With the serialized default pool size, an emission of up to that many
      particles right after initialization needs no growth and registers its
      anchor in slot 0. */
  lemma DefaultPoolServesWithoutGrowth(w: World, anchor: Anchor, params: EmitParameter, draw: nat -> Draw)
    requires params.count <= DefaultPoolSize
    ensures var s := Initialize(w, DefaultPoolSize);
            var e := Emit(s, anchor, params, draw);
            && |s.available| == DefaultPoolSize
            && e.state.world.nextId == s.world.nextId
            && |e.info.particles.value| == Requested(params)
            && e.info.index == 0
  {
    var s := Initialize(w, DefaultPoolSize);
    assert Grow(s, params.count) == s;
  }

  // ---------------------------------------------------------------------------
  // A worked scenario

  /** A pool with two available particles asked for three grows by one
      (max(3 - 2, ceil(3) - 2)) and hands out all three, leaving none. */
  lemma ScenarioFirstEmit(s0: SpawnerState, a: Anchor, pa: EmitParameter, draw: nat -> Draw)
    requires |s0.available| == 2
    requires pa.count == 3
    ensures var e1 := Emit(s0, a, pa, draw);
            && |e1.info.particles.value| == 3
            && |e1.state.available| == 0
            && e1.state.world.nextId == s0.world.nextId + 1
  {
  }

  /** A pool left with no available particle, asked for one more, grows
      again by one (max(1 - 0, ceil(0) - 0)): what remains after an earlier
      emission is not enough to avoid growth. */
  lemma ScenarioSecondEmit(s1: SpawnerState, b: Anchor, pb: EmitParameter, draw: nat -> Draw)
    requires |s1.available| == 0
    requires pb.count == 1
    ensures var e2 := Emit(s1, b, pb, draw);
            && |e2.info.particles.value| == 1
            && |e2.state.available| == 0
            && e2.state.world.nextId == s1.world.nextId + 1
  {
  }
}
