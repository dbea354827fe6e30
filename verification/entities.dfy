/** The slice of the ECS world the spawner touches: a fresh-id counter for
    entities, the `DisableRendering` tag (as the set of entities carrying it),
    and the two per-particle components `MeshInstanceData` and `ColorData`.
    Render-mesh registration is not part of this model.
 */
module Entities {
  import opened Types

  datatype World = World(
    nextId: nat,
    disabled: set<Entity>,
    meshes: map<Entity, MeshInstanceData>,
    colors: map<Entity, Color>)

  const EmptyWorld: World := World(0, {}, map[], map[])

  /** A world together with the entity just created in it. */
  datatype Created = Created(world: World, entity: Entity)

  /** `EntityManager.CreateEntity()`: a new entity with no components. */
  function CreateBareEntity(w: World): (r: Created)
    ensures r.entity.id == w.nextId
    ensures r.world.nextId > w.nextId
    ensures r.world.disabled == w.disabled && r.world.meshes == w.meshes && r.world.colors == w.colors
  {
    Created(w.(nextId := w.nextId + 1), Entity(w.nextId))
  }

  /** Removes the `DisableRendering` tag if present. */
  function EnableEntity(w: World, e: Entity): (r: World)
    ensures e !in r.disabled
    ensures forall x :: x != e ==> (x in r.disabled <==> x in w.disabled)
    ensures r.nextId == w.nextId && r.meshes == w.meshes && r.colors == w.colors
  {
    w.(disabled := w.disabled - {e})
  }

  /** Adds the `DisableRendering` tag if absent. */
  function DisableEntity(w: World, e: Entity): (r: World)
    ensures e in r.disabled
    ensures forall x :: x != e ==> (x in r.disabled <==> x in w.disabled)
    ensures r.nextId == w.nextId && r.meshes == w.meshes && r.colors == w.colors
  {
    w.(disabled := w.disabled + {e})
  }

  lemma EnableIdempotent(w: World, e: Entity)
    ensures EnableEntity(EnableEntity(w, e), e) == EnableEntity(w, e)
  {
  }

  lemma DisableIdempotent(w: World, e: Entity)
    ensures DisableEntity(DisableEntity(w, e), e) == DisableEntity(w, e)
  {
  }

  /** Enabling undoes disabling an entity that was visible, and vice versa. */
  lemma EnableDisableInverse(w: World, e: Entity)
    ensures e !in w.disabled ==> EnableEntity(DisableEntity(w, e), e) == w
    ensures e in w.disabled ==> DisableEntity(EnableEntity(w, e), e) == w
  {
  }

  /** Two worlds agree on everything recorded about `e`. */
  predicate SameEntity(w1: World, w2: World, e: Entity)
  {
    && (e in w1.disabled <==> e in w2.disabled)
    && (e in w1.meshes <==> e in w2.meshes)
    && (e in w1.meshes ==> w1.meshes[e] == w2.meshes[e])
    && (e in w1.colors <==> e in w2.colors)
    && (e in w1.colors ==> w1.colors[e] == w2.colors[e])
  }
}
