# DotParticleSpawner resource bookkeeping, in Dafny

This project models the bookkeeping core of `DotParticleSpawner`, the MonoBehaviour in a Unity
ECS sample that keeps a pool of particle entities and hands them out per emission. It covers:

- **The particle pool.** There is a FIFO queue of available particle entities and a set of
  active ones. `Emit` grows the pool when it is short and dequeues the requested particles.
  `ReturnParticles` re-enqueues them. `ShowParticles` and `HideParticles` toggle the
  `DisableRendering` tag.
- **The emitter-origin slot table (`EmitterOriginManager`).** It has 100 slots. Free slots wait
  in a FIFO queue, and taken slots are in a set and in an ordered list of (slot, anchor)
  entries. A singleton entity holds a buffer with one position per slot, and `UpdateOrigins`
  refreshes that buffer from the anchors every frame.
- **`ColorTheme`.** A never-empty palette; one colour is drawn per particle.
- **`UpdateEntity`.** Tags each emitted particle with its origin slot, scale, drawn values and
  colour.

The model is functional: every operation is a pure function from one state to the next.

- The ECS world is reduced to three things (module `Entities`):
  - a fresh-id counter for entities;
  - the set of entities carrying `DisableRendering`;
  - maps for the `MeshInstanceData` and `ColorData` components.
- The singleton origin entity is created first. Every particle therefore has a larger id.
- The random values of an emission are a parameter `draw: nat -> Draw`. `draw(i)` is what
  `Random` yields for the i-th particle of that emission.
- Floating-point values are `real`s that are only copied, never computed on.

Modules follow the source's structure:

| file | module | source entity |
|---|---|---|
| `types.dfy` | `Types` | `float3`, `Color`, `Entity`, `MeshInstanceData`, `EmitterPositionElement`, and sequence helpers |
| `entities.dfy` | `Entities` | the slice of `EntityManager` used, plus `EnableEntity`/`DisableEntity` |
| `origins.dfy` | `Origins` | `EmitterOriginManager`, `OriginIndexInfo`, `EmitterOriginInfo` |
| `color_theme.dfy` | `ColorThemes` | `ColorTheme` |
| `spawner.dfy` | `Spawner` | `DotParticleSpawner`: pool, `Emit`, `ReturnParticles`, show/hide, `Initialize` |

Two invariants carry most of the proofs:

- **`Origins.Valid`.** Free and taken slots partition `0..99`. The free queue has no repeats.
  The origin list names exactly the taken slots, each once. The buffer has 100 elements.
- **`Spawner.PoolValid`.** The origin table is valid. Every particle is either in the
  available queue (exactly once) or in the active set, never both. Nothing that is not a
  particle is in either.

### Where the code's behaviour is not the obvious one

The model follows the code in each of these cases:

- **A full origin table does not stop an emission.** `Emit` first grows the pool, then calls
  `AddOrigin`. When no slot is free, `AddOrigin` returns index -1 and only logs an error. The
  particles are still dequeued, activated and tagged with origin index -1
  (`Spawner.EmitWhenTableFull`). The per-frame job would then read the position buffer at
  index -1 (`Assets/Project/Scripts/Dots/DotParticleSystem.cs:53`).
- **`ReturnParticles` is not idempotent.** It re-enqueues every listed particle without
  checking that it was active. Returning the same emission twice therefore puts each particle
  in the queue twice and breaks pool accounting (`Spawner.DoubleReturnBreaksDistinctness`).
  A return whose slot has meanwhile been handed to another emission frees that other slot
  (`Spawner.StaleReturnFreesReusedSlot`).
- **Emit-then-return restores the count after growth, not before the emission.** The active
  set, the taken slots and the origin list come back as they were. The available queue ends
  up as the post-growth queue rotated by the requested count (`Spawner.EmitThenReturn`).
  Growth is never undone.
- **What remains after a growing emission is often zero.** Growth adds
  `max(needed, ceil(1.5·a) − a)` to an available count `a`.
  - A pool with 2 available particles asked for 3 grows by 1 and is left with 0 available.
  - The next emission of 1 must therefore grow again (`Spawner.ScenarioFirstEmit`,
    `Spawner.ScenarioSecondEmit`).

## Model

| member | source | states |
|---|---|---|
| `Entities.EnableEntity` | Assets/Project/Scripts/Dots/DotParticleSpawner.cs:406-412 | the entity loses the `DisableRendering` tag; every other entity's tag and all components are unchanged |
| `Entities.DisableEntity` | Assets/Project/Scripts/Dots/DotParticleSpawner.cs:398-404 | the entity carries the tag afterwards; nothing else changes |
| `Entities.EnableDisableInverse` | Assets/Project/Scripts/Dots/DotParticleSpawner.cs:398-412 | enabling undoes disabling a visible entity, and disabling undoes enabling a hidden one |
| `Entities.EnableIdempotent` | Assets/Project/Scripts/Dots/DotParticleSpawner.cs:406-412 | the `HasComponent` guard makes enabling twice the same as enabling once |
| `Entities.DisableIdempotent` | Assets/Project/Scripts/Dots/DotParticleSpawner.cs:398-404 | disabling twice is the same as disabling once |
| `Origins.CreateSingletonEntity` | Assets/Project/Scripts/Dots/DotParticleSpawner.cs:209-226 | consumes one fresh entity id and gives it a buffer of exactly 100 default (origin) positions |
| `Origins.NewManager` | Assets/Project/Scripts/Dots/DotParticleSpawner.cs:128-144 | the new table is valid, with every slot free and queued in ascending order `0..99`, no taken slot, an empty origin list, and the singleton entity first in id order |
| `Origins.AddOrigin` | Assets/Project/Scripts/Dots/DotParticleSpawner.cs:159-177 | with an empty free queue: index -1 and the table unchanged; otherwise the head of the queue, which becomes taken and is appended to the origin list with its anchor |
| `Origins.FindOrigin` | Assets/Project/Scripts/Dots/DotParticleSpawner.cs:181-189 | -1 exactly when no entry is for the slot; otherwise the first position holding it |
| `Origins.RemoveOrigin` | Assets/Project/Scripts/Dots/DotParticleSpawner.cs:179-201 | an unknown slot leaves the table unchanged; a known one loses its first list entry and its taken mark, and joins the back of the free queue |
| `Origins.WritePositions` | Assets/Project/Scripts/Dots/DotParticleSpawner.cs:152-156 | slots with no entry keep their position; a slot's final value comes from the last entry for it in list order |
| `Origins.UpdateOrigins` | Assets/Project/Scripts/Dots/DotParticleSpawner.cs:149-157 | only the buffer changes; every listed slot holds its anchor's position and unlisted slots are untouched |
| `Origins.SlotConservation` | Assets/Project/Scripts/Dots/DotParticleSpawner.cs:123-128 | free and taken slots are disjoint, together are exactly `0..99`, and their counts add up to 100 |
| `Origins.AddOriginPreservesValid` | Assets/Project/Scripts/Dots/DotParticleSpawner.cs:159-177 | registration keeps the table invariant |
| `Origins.RemoveOriginPreservesValid` | Assets/Project/Scripts/Dots/DotParticleSpawner.cs:179-201 | unregistration, of a known or an unknown slot, keeps the table invariant |
| `Origins.UpdateOriginsPreservesValid` | Assets/Project/Scripts/Dots/DotParticleSpawner.cs:149-157 | on a valid table every listed slot lies inside the buffer, and the refresh keeps the invariant |
| `Origins.RemoveUnknownIsNoop` | Assets/Project/Scripts/Dots/DotParticleSpawner.cs:191-195 | unregistering a slot that is not taken changes nothing |
| `Origins.FullTableRejects` | Assets/Project/Scripts/Dots/DotParticleSpawner.cs:161-165 | with all 100 slots taken, registration returns -1 and leaves the table exactly as it was |
| `Origins.AddRemoveRoundTrip` | Assets/Project/Scripts/Dots/DotParticleSpawner.cs:159-201 | registering then unregistering the returned slot restores the taken set, the origin list and the buffer; the slot moves from the queue's front to its back |
| `Origins.RegisterThenUnregister` | Assets/Project/Scripts/Dots/DotParticleSpawner.cs:159-201 | whether or not a slot was free, unregistering the index a registration returned restores the taken slots, the origin list and the free-slot count |
| `Origins.AddManyIsFifo` | Assets/Project/Scripts/Dots/DotParticleSpawner.cs:159-177 | successive registrations receive the free slots in queue order, and -1 once the queue is exhausted |
| `Origins.AddManyPreservesValid` | Assets/Project/Scripts/Dots/DotParticleSpawner.cs:159-177 | any sequence of registrations keeps the table invariant |
| `Origins.FreshTableFillsInOrder` | Assets/Project/Scripts/Dots/DotParticleSpawner.cs:140-165 | from the initial table, 100 registrations get slots `0..99` in order and leave a valid full table; the 101st gets -1 and changes nothing |
| `ColorThemes.NewColorTheme` | Assets/Project/Scripts/Dots/DotParticleSpawner.cs:48-55 | a non-empty array is kept; a null or empty one falls back to the single white colour |
| `ColorThemes.GetRandomNext` | Assets/Project/Scripts/Dots/DotParticleSpawner.cs:57-61 | the colour drawn is always an entry of the palette |
| `ColorThemes.EveryColorReachable` | Assets/Project/Scripts/Dots/DotParticleSpawner.cs:57-61 | every palette entry is drawn by some roll: the roll equal to its index |
| `ColorThemes.DrawnIndexInRange` | Assets/Project/Scripts/Dots/DotParticleSpawner.cs:59-60 | for any roll, the index drawn lies in `[0, n)` and the colour is the palette entry at that index |
| `ColorThemes.FallbackDrawsWhite` | Assets/Project/Scripts/Dots/DotParticleSpawner.cs:48-55 | a theme built from a null palette always draws white |
| `Spawner.CreateEntity` | Assets/Project/Scripts/Dots/DotParticleSpawner.cs:347-375 | a fresh entity with a zeroed `MeshInstanceData` and `ColorData`, created hidden; no other entity changes |
| `Spawner.AddFresh` | Assets/Project/Scripts/Dots/DotParticleSpawner.cs:420-424 | one new particle joins the back of the queue; earlier entities are unchanged |
| `Spawner.ExpandPool` | Assets/Project/Scripts/Dots/DotParticleSpawner.cs:418-425 | appends exactly `max(n, 0)` new particles, with consecutive fresh ids, behind the unchanged queue; the active set and the origin table are unchanged |
| `Spawner.ExpandKeepsEntities` | Assets/Project/Scripts/Dots/DotParticleSpawner.cs:418-425 | growth leaves every earlier entity's tag and components as they were, and every new particle is created hidden |
| `Spawner.AddFreshPreservesValid` | Assets/Project/Scripts/Dots/DotParticleSpawner.cs:420-424 | adding one particle keeps pool accounting |
| `Spawner.ExpandPreservesValid` | Assets/Project/Scripts/Dots/DotParticleSpawner.cs:418-425 | growing by any amount keeps pool accounting |
| `Spawner.CeilOneAndHalf` | Assets/Project/Scripts/Dots/DotParticleSpawner.cs:236 | the result is the least integer not below 1.5 times the count |
| `Spawner.GrowthAmount` | Assets/Project/Scripts/Dots/DotParticleSpawner.cs:289-290 | the amount is the larger of the shortfall and `ceil(1.5·a) − a` |
| `Spawner.Grow` | Assets/Project/Scripts/Dots/DotParticleSpawner.cs:287-292 | a pool that is not short is left unchanged; otherwise at least `count` particles become available; the old queue is a prefix and the new entries are consecutive fresh ids; a short pool reaches `count` or `ceil(1.5·a)`, and at least 1.5 times its size; active set and origin table untouched |
| `Spawner.UpdateEntity` | Assets/Project/Scripts/Dots/DotParticleSpawner.cs:377-396 | the particle is tagged with the origin index and the uniform scale, and given a colour; other entities and the tag set are unchanged |
| `Spawner.ColorFor` | Assets/Project/Scripts/Dots/DotParticleSpawner.cs:391-395 | the colour written is a palette colour with alpha forced to 1 |
| `Spawner.Dequeue` | Assets/Project/Scripts/Dots/DotParticleSpawner.cs:299-303 | the front particle leaves the queue, becomes active and visible, and carries the origin index, the scale and the drawn values; no other entity changes |
| `Spawner.Acquire` | Assets/Project/Scripts/Dots/DotParticleSpawner.cs:298-305 | hands out the front `n` queue entries in order and activates them; the rest of the queue stays in order and the origin table is untouched |
| `Spawner.AcquireFrames` | Assets/Project/Scripts/Dots/DotParticleSpawner.cs:298-305 | every particle handed out ends up visible and tagged with the origin index and scale, and no other entity changes |
| `Spawner.AcquireTags` | Assets/Project/Scripts/Dots/DotParticleSpawner.cs:298-305 | when the dequeued particles are distinct, particle k carries exactly the values drawn for it |
| `Spawner.AcquirePreservesValid` | Assets/Project/Scripts/Dots/DotParticleSpawner.cs:298-305 | dequeuing keeps pool accounting and hands out distinct particles that were not active |
| `Spawner.Emit` | Assets/Project/Scripts/Dots/DotParticleSpawner.cs:285-312 | after growth, exactly `Count` particles come from the front of the queue; the available count falls by `Count`; they become active and visible, tagged with the index registration returned (the queue head, or -1) |
| `Spawner.EmitPreservesPool` | Assets/Project/Scripts/Dots/DotParticleSpawner.cs:285-312 | an emission keeps pool accounting and hands out distinct, previously inactive particles, each tagged with its own draw |
| `Spawner.EmitLeavesOthersAlone` | Assets/Project/Scripts/Dots/DotParticleSpawner.cs:287-305 | every earlier entity not handed out keeps its tag, components and active status, growth included |
| `Spawner.EmitWhenTableFull` | Assets/Project/Scripts/Dots/DotParticleSpawner.cs:294-305 | with a full origin table the emission still activates `Count` particles, tagged -1 (outside the buffer), and the table is unchanged |
| `Spawner.Release` | Assets/Project/Scripts/Dots/DotParticleSpawner.cs:318-323 | every listed particle is hidden, appended to the queue and removed from the active set; no other tag or component changes |
| `Spawner.ReturnParticles` | Assets/Project/Scripts/Dots/DotParticleSpawner.cs:314-329 | a null list changes nothing; otherwise the particles are released and then the emission's slot is unregistered |
| `Spawner.ReleasePreservesValid` | Assets/Project/Scripts/Dots/DotParticleSpawner.cs:318-323 | releasing distinct active particles keeps pool accounting |
| `Spawner.ReturnPreservesValid` | Assets/Project/Scripts/Dots/DotParticleSpawner.cs:314-329 | returning distinct active particles keeps pool accounting |
| `Spawner.EmitThenReturn` | Assets/Project/Scripts/Dots/DotParticleSpawner.cs:285-329 | emit then return keeps the pool valid and restores the active set, the taken slots, the origin list and the free-slot count; the queue becomes the post-growth queue rotated by `Count` |
| `Spawner.ReturnLeavesOthersAlone` | Assets/Project/Scripts/Dots/DotParticleSpawner.cs:314-329 | entities outside the returned emission and other origin slots are untouched |
| `Spawner.DoubleReturnBreaksDistinctness` | Assets/Project/Scripts/Dots/DotParticleSpawner.cs:316-323 | returning a non-empty emission twice leaves a particle twice in the queue, so pool accounting fails |
| `Spawner.StaleReturnFreesReusedSlot` | Assets/Project/Scripts/Dots/DotParticleSpawner.cs:325-328 | returning an emission whose slot is taken, whoever took it, frees that slot |
| `Spawner.EnableAll` | Assets/Project/Scripts/Dots/DotParticleSpawner.cs:333-336 | every listed entity becomes visible; other entities keep their visibility |
| `Spawner.DisableAll` | Assets/Project/Scripts/Dots/DotParticleSpawner.cs:341-344 | every listed entity becomes hidden; other entities keep their visibility |
| `Spawner.ShowParticles` | Assets/Project/Scripts/Dots/DotParticleSpawner.cs:331-337 | fails exactly on a null list; otherwise shows the listed particles and changes nothing else |
| `Spawner.HideParticles` | Assets/Project/Scripts/Dots/DotParticleSpawner.cs:339-345 | fails exactly on a null list; otherwise hides the listed particles and changes nothing else |
| `Spawner.ShowHideKeepPool` | Assets/Project/Scripts/Dots/DotParticleSpawner.cs:331-345 | showing and hiding keep pool accounting, and hiding after showing equals hiding alone |
| `Spawner.Initialize` | Assets/Project/Scripts/Dots/DotParticleSpawner.cs:261-278 | in any existing world: a valid pool of `poolSize` hidden, available particles whose ids follow the singleton's, none active, a fresh origin table, and every entity already in the world untouched |
| `Spawner.DefaultPoolServesWithoutGrowth` | Assets/Project/Scripts/Dots/DotParticleSpawner.cs:231-294 | with the default pool size of 1000, a first emission of at most 1000 particles creates no entity, hands out exactly the requested number and gets origin slot 0 |
| `Spawner.ScenarioFirstEmit` | Assets/Project/Scripts/Dots/DotParticleSpawner.cs:287-305 | 2 available, 3 requested: the pool grows by one and all three are handed out, leaving none |
| `Spawner.ScenarioSecondEmit` | Assets/Project/Scripts/Dots/DotParticleSpawner.cs:287-305 | 0 available, 1 requested: the pool grows by one again |

## Left out

- The per-frame particle update job (`DotParticleSystem.cs`) is not part of this model. Its
  floating-point orbit computation is out of scope. Only its read of the position buffer at
  the particle's origin index is referred to above.
- Rendering set-up in `CreateEntity` is not modelled: the filter settings, `RenderMeshArray`
  and `RenderMeshUtility.AddComponents`. The model keeps only the two data components and the
  `DisableRendering` tag.
- Randomness is a parameter. `Random.insideUnitSphere.normalized * Radius` and the three
  `Random.Range` draws over float ranges become the fields of `Draw`. The colour index becomes
  `colorRoll mod n`.
- Logging (`Debug.Log`, `LogError`, `LogWarning`) is left out, as are the MonoBehaviour
  lifecycle (`Awake`, and `Update` calling `UpdateOrigins` every frame) and the serialized
  fields `_material` and `_mesh`.
- Spawner.CeilOneAndHalf: computes `ceil(1.5·a)` exactly. The source computes `a * 1.5f` in
  single precision, so the two can differ for some counts from about 2^24/3 (roughly 5.6
  million) upward, where the product's half no longer fits in a `float`.
- Spawner.Emit: a 32-bit `int` is modelled as an unbounded integer, so overflow of the pool
  size is left out.
- Spawner.Emit: the `ColorTheme` of an `EmitParameter` is never null in the model. The
  default struct value would make `UpdateEntity` throw a null-reference exception.
- The private parameterless `ColorTheme()` constructor is left out. It leaves the palette
  null and is not reachable from outside the class.
- The guard `_emitterManagerEntity != Entity.Null` in `CreateSingletonEntity` is left out.
  The constructor calls it once, while the field is still null, so it never fires.
- `ShowParticles` and `HideParticles` on a null particle list throw in the source. The model
  returns `None` instead of modelling an exception.
- `ParticleTester`, `FpsCounter` and `Rotater` are scene scripts outside the spawner and are
  not modelled.
