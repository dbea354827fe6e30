/** The emitter-origin slot table (`EmitterOriginManager`).

    A fixed table of `Capacity` slots. Free slot indices wait in a FIFO queue,
    taken ones are in the active set, each taken slot is paired with its anchor
    in an ordered list, and a buffer on a singleton entity holds one position
    per slot, refreshed once per frame from the anchors.
 */
module Origins {
  import opened Types
  import opened Entities

  /** `s_capacity`. */
  const Capacity: nat := 100

  /** `OriginIndexInfo.Null`: the index handed out when no slot is free. */
  const NullIndex: int := -1

  /** `EmitterOriginInfo`: a taken slot and the anchor driving it. */
  datatype OriginInfo = OriginInfo(index: int, anchor: Anchor)

  datatype OriginManager = OriginManager(
    entity: Entity,                          // the singleton entity holding the buffer
    available: seq<int>,                     // FIFO queue of free slots, front first
    active: set<int>,                        // taken slots
    infos: seq<OriginInfo>,                  // taken slots with their anchors, in order of registration
    positions: seq<EmitterPositionElement>)  // the position buffer, one element per slot

  /** The slot indices mentioned in an origin list. */
  function IndexSet(infos: seq<OriginInfo>): set<int>
  {
    set k | 0 <= k < |infos| :: infos[k].index
  }

  predicate DistinctIndices(infos: seq<OriginInfo>)
  {
    forall j, k :: 0 <= j < k < |infos| ==> infos[j].index != infos[k].index
  }

  /** `k` is the first position of the list whose entry is for slot `index`. */
  predicate FirstAt(infos: seq<OriginInfo>, index: int, k: int)
  {
    && 0 <= k < |infos|
    && infos[k].index == index
    && forall j :: 0 <= j < k ==> infos[j].index != index
  }

  /** No later entry of the list is for the same slot as position `k`. */
  predicate LastAt(infos: seq<OriginInfo>, k: int)
    requires 0 <= k < |infos|
  {
    forall j :: k < j < |infos| ==> infos[j].index != infos[k].index
  }

  /** The table invariant: free and taken slots partition `0 .. Capacity-1`,
      the free queue holds each free slot once, the origin list names exactly
      the taken slots, each once, and the buffer has one element per slot. */
  ghost predicate Valid(m: OriginManager)
  {
    && |m.positions| == Capacity
    && NoDup(m.available)
    && (forall i :: i in m.available <==> 0 <= i < Capacity && i !in m.active)
    && (forall i :: i in m.active ==> 0 <= i < Capacity)
    && IndexSet(m.infos) == m.active
    && DistinctIndices(m.infos)
  }

  /** The queue `0, 1, .., n-1` the constructor fills. */
  function Ascending(n: nat): (r: seq<int>)
    ensures |r| == n
    ensures forall i :: 0 <= i < n ==> r[i] == i
  {
    if n == 0 then [] else Ascending(n - 1) + [n - 1]
  }

  /** `n` default buffer elements, as `CreateSingletonEntity` appends them. */
  function DefaultBuffer(n: nat): (r: seq<EmitterPositionElement>)
    ensures |r| == n
    ensures forall i :: 0 <= i < n ==> r[i] == DefaultPosition
  {
    if n == 0 then [] else DefaultBuffer(n - 1) + [DefaultPosition]
  }

  /** The world after `CreateSingletonEntity`, the singleton entity and its buffer. */
  datatype Singleton = Singleton(world: World, entity: Entity, buffer: seq<EmitterPositionElement>)

  /** `CreateSingletonEntity`: one new entity carrying a buffer of `Capacity`
      default positions. */
  function CreateSingletonEntity(w: World): (r: Singleton)
    ensures r.entity.id == w.nextId && r.world.nextId == w.nextId + 1
    ensures r.world.disabled == w.disabled && r.world.meshes == w.meshes && r.world.colors == w.colors
    ensures |r.buffer| == Capacity
    ensures forall i :: 0 <= i < |r.buffer| ==> r.buffer[i] == DefaultPosition
  {
    var created := CreateBareEntity(w);
    Singleton(created.world, created.entity, DefaultBuffer(Capacity))
  }

  /** The world after construction, and the new table. */
  datatype Constructed = Constructed(world: World, table: OriginManager)

  /** The constructor: every slot free, queued in ascending order. */
  function NewManager(w: World): (r: Constructed)
    ensures Valid(r.table)
    ensures |r.table.available| == Capacity
    ensures forall i :: 0 <= i < Capacity ==> r.table.available[i] == i
    ensures r.table.active == {} && r.table.infos == []
    ensures r.table.entity.id == w.nextId && r.world.nextId == w.nextId + 1
    ensures r.world.disabled == w.disabled && r.world.meshes == w.meshes && r.world.colors == w.colors
  {
    var created := CreateSingletonEntity(w);
    var m := OriginManager(created.entity, Ascending(Capacity), {}, [], created.buffer);
    assert forall i :: i in m.available <==> 0 <= i < Capacity by {
      forall i | 0 <= i < Capacity ensures i in m.available {
        assert m.available[i] == i;
      }
    }
    Constructed(created.world, m)
  }

  /** The table after a registration and the index it handed out
      (`OriginIndexInfo`). */
  datatype Registered = Registered(table: OriginManager, index: int)

  /** `AddOrigin`: takes the slot at the front of the free queue for `anchor`,
      or hands out `NullIndex` and changes nothing when none is free. */
  function AddOrigin(m: OriginManager, anchor: Anchor): (r: Registered)
    ensures |m.available| == 0 ==> r.index == NullIndex && r.table == m
    ensures |m.available| > 0 ==>
      && r.index == m.available[0]
      && r.table.available == m.available[1..]
      && r.table.active == m.active + {r.index}
      && r.table.infos == m.infos + [OriginInfo(r.index, anchor)]
      && r.table.positions == m.positions
      && r.table.entity == m.entity
  {
    if |m.available| == 0 then
      Registered(m, NullIndex)
    else
      var index := m.available[0];
      Registered(
        m.(available := m.available[1..],
           active := m.active + {index},
           infos := m.infos + [OriginInfo(index, anchor)]),
        index)
  }

  /** The search loop of `RemoveOrigin`: the first position holding slot
      `index`, or -1. */
  function FindOrigin(infos: seq<OriginInfo>, index: int): (r: int)
    ensures -1 <= r < |infos|
    ensures r == -1 <==> index !in IndexSet(infos)
    ensures r != -1 ==> FirstAt(infos, index, r)
  {
    if |infos| == 0 then
      -1
    else if infos[0].index == index then
      0
    else
      var t := FindOrigin(infos[1..], index);
      assert IndexSet(infos) == {infos[0].index} + IndexSet(infos[1..]) by {
        forall i | i in IndexSet(infos) ensures i in {infos[0].index} + IndexSet(infos[1..]) {
          var k :| 0 <= k < |infos| && infos[k].index == i;
          if k > 0 {
            assert infos[1..][k - 1] == infos[k];
          }
        }
        forall i | i in IndexSet(infos[1..]) ensures i in IndexSet(infos) {
          var k :| 0 <= k < |infos[1..]| && infos[1..][k].index == i;
          assert infos[k + 1] == infos[1..][k];
        }
      }
      if t == -1 then -1 else t + 1
  }

  function RemoveAt<T>(s: seq<T>, k: nat): (r: seq<T>)
    requires k < |s|
    ensures |r| == |s| - 1
    ensures forall j :: 0 <= j < k ==> r[j] == s[j]
    ensures forall j :: k <= j < |r| ==> r[j] == s[j + 1]
  {
    s[..k] + s[k + 1..]
  }

  /** `RemoveOrigin`: frees slot `index`. When the origin list has no entry for
      it, nothing changes (the source logs a warning). Otherwise only the
      first entry for it is dropped, the slot leaves the active set, and it
      joins the back of the free queue. */
  function RemoveOrigin(m: OriginManager, index: int): (r: OriginManager)
    ensures index !in IndexSet(m.infos) ==> r == m
    ensures index in IndexSet(m.infos) ==>
      && (exists k :: FirstAt(m.infos, index, k) && r.infos == RemoveAt(m.infos, k))
      && r.active == m.active - {index}
      && r.available == m.available + [index]
      && r.positions == m.positions
      && r.entity == m.entity
  {
    var k := FindOrigin(m.infos, index);
    if k == -1 then
      m
    else
      m.(infos := RemoveAt(m.infos, k),
         active := m.active - {index},
         available := m.available + [index])
  }

  /** Every entry of the origin list names a slot of the buffer. */
  predicate InBuffer(infos: seq<OriginInfo>, buffer: seq<EmitterPositionElement>)
  {
    forall k :: 0 <= k < |infos| ==> 0 <= infos[k].index < |buffer|
  }

  /** The loop of `UpdateOrigins`: for each entry, in list order, writes the
      anchor's current position into the entry's slot. */
  function WritePositions(buffer: seq<EmitterPositionElement>, infos: seq<OriginInfo>, pos: Anchor -> Vec3)
    : (r: seq<EmitterPositionElement>)
    requires InBuffer(infos, buffer)
    ensures |r| == |buffer|
    ensures forall i :: 0 <= i < |buffer| && i !in IndexSet(infos) ==> r[i] == buffer[i]
    ensures forall k :: 0 <= k < |infos| && LastAt(infos, k) ==>
      r[infos[k].index] == EmitterPositionElement(pos(infos[k].anchor))
    decreases |infos|
  {
    if |infos| == 0 then
      buffer
    else
      var n := |infos| - 1;
      var front := infos[..n];
      var last := infos[n];
      assert InBuffer(front, buffer);
      assert IndexSet(infos) == IndexSet(front) + {last.index} by {
        assert infos == front + [last];
        IndexSetAppend(front, last);
      }
      var written := WritePositions(buffer, front, pos);
      assert forall k :: 0 <= k < n && LastAt(infos, k) ==> LastAt(front, k) && infos[k].index != last.index by {
        forall k | 0 <= k < n && LastAt(infos, k) ensures LastAt(front, k) && infos[k].index != last.index {
          LastAtFront(infos, k);
        }
      }
      written[last.index := EmitterPositionElement(pos(last.anchor))]
  }

  /** An entry that is the last for its slot stays so in the list without its
      final entry, and the final entry is for another slot. */
  lemma LastAtFront(infos: seq<OriginInfo>, k: int)
    requires 0 <= k < |infos| - 1
    requires LastAt(infos, k)
    ensures LastAt(infos[..|infos| - 1], k)
    ensures infos[k].index != infos[|infos| - 1].index
  {
    var front := infos[..|infos| - 1];
    forall j | k < j < |front| ensures front[j].index != front[k].index {
      assert front[j] == infos[j] && front[k] == infos[k];
    }
  }

  /** `UpdateOrigins`: refreshes the slot of every listed anchor from the
      anchor's current position; no other slot and nothing else changes. */
  function UpdateOrigins(m: OriginManager, pos: Anchor -> Vec3): (r: OriginManager)
    requires InBuffer(m.infos, m.positions)
    ensures r == m.(positions := r.positions)
    ensures |r.positions| == |m.positions|
    ensures forall i :: 0 <= i < |m.positions| && i !in IndexSet(m.infos) ==> r.positions[i] == m.positions[i]
    ensures DistinctIndices(m.infos) ==>
      forall k :: 0 <= k < |m.infos| ==> r.positions[m.infos[k].index] == EmitterPositionElement(pos(m.infos[k].anchor))
  {
    m.(positions := WritePositions(m.positions, m.infos, pos))
  }

  // ---------------------------------------------------------------------------
  // Facts about origin lists

  lemma IndexSetAppend(infos: seq<OriginInfo>, o: OriginInfo)
    ensures IndexSet(infos + [o]) == IndexSet(infos) + {o.index}
  {
    var s := infos + [o];
    forall i | i in IndexSet(s) ensures i in IndexSet(infos) + {o.index} {
      var k :| 0 <= k < |s| && s[k].index == i;
      if k < |infos| {
        assert s[k] == infos[k];
      }
    }
    forall i | i in IndexSet(infos) ensures i in IndexSet(s) {
      var k :| 0 <= k < |infos| && infos[k].index == i;
      assert s[k] == infos[k];
    }
    assert s[|infos|] == o;
  }

  lemma RemoveAtIndexSet(infos: seq<OriginInfo>, k: nat)
    requires k < |infos|
    requires DistinctIndices(infos)
    ensures IndexSet(RemoveAt(infos, k)) == IndexSet(infos) - {infos[k].index}
    ensures DistinctIndices(RemoveAt(infos, k))
  {
    var s := RemoveAt(infos, k);
    forall i | i in IndexSet(s) ensures i in IndexSet(infos) - {infos[k].index} {
      var j :| 0 <= j < |s| && s[j].index == i;
      if j < k {
        assert s[j] == infos[j];
      } else {
        assert s[j] == infos[j + 1];
      }
    }
    forall i | i in IndexSet(infos) - {infos[k].index} ensures i in IndexSet(s) {
      var j :| 0 <= j < |infos| && infos[j].index == i;
      if j < k {
        assert s[j] == infos[j];
      } else {
        assert j > k;
        assert s[j - 1] == infos[j];
      }
    }
  }

  // ---------------------------------------------------------------------------
  // Slot conservation

  /** Free and taken slots are disjoint, together make up every slot, and
      their counts add up to the capacity. */
  lemma SlotConservation(m: OriginManager)
    requires Valid(m)
    ensures Elems(m.available) !! m.active
    ensures Elems(m.available) + m.active == Range(Capacity)
    ensures |m.available| + |m.active| == Capacity
  {
    var free := Elems(m.available);
    assert free !! m.active;
    var all := Range(Capacity);
    forall i ensures i in free + m.active <==> i in all {
      if i in free {
        assert i in m.available;
      }
    }
    assert free + m.active == all;
    NoDupCard(m.available);
    assert |free + m.active| == |free| + |m.active|;
  }

  lemma AddOriginPreservesValid(m: OriginManager, anchor: Anchor)
    requires Valid(m)
    ensures Valid(AddOrigin(m, anchor).table)
  {
    if |m.available| > 0 {
      var r := AddOrigin(m, anchor);
      var x := m.available[0];
      IndexSetAppend(m.infos, OriginInfo(x, anchor));
      assert x !in m.available[1..] by {
        forall j | 0 <= j < |m.available[1..]| ensures m.available[1..][j] != x {
          assert m.available[1..][j] == m.available[j + 1];
        }
      }
      forall i ensures i in r.table.available <==> 0 <= i < Capacity && i !in r.table.active {
        assert i in m.available <==> i == x || i in m.available[1..] by {
          assert m.available == [x] + m.available[1..];
        }
      }
      assert x !in IndexSet(m.infos);
    }
  }

  lemma RemoveOriginPreservesValid(m: OriginManager, index: int)
    requires Valid(m)
    ensures Valid(RemoveOrigin(m, index))
  {
    var r := RemoveOrigin(m, index);
    if index in IndexSet(m.infos) {
      var k :| FirstAt(m.infos, index, k) && r.infos == RemoveAt(m.infos, k);
      RemoveAtIndexSet(m.infos, k);
      assert index !in m.available;
      assert NoDup(r.available) by {
        forall i, j | 0 <= i < j < |r.available| ensures r.available[i] != r.available[j] {
          if j == |m.available| {
            assert r.available[i] == m.available[i];
          }
        }
      }
    }
  }

  lemma UpdateOriginsPreservesValid(m: OriginManager, pos: Anchor -> Vec3)
    requires Valid(m)
    ensures InBuffer(m.infos, m.positions)
    ensures Valid(UpdateOrigins(m, pos))
  {
    assert InBuffer(m.infos, m.positions) by {
      forall k | 0 <= k < |m.infos| ensures 0 <= m.infos[k].index < |m.positions| {
        assert m.infos[k].index in IndexSet(m.infos);
      }
    }
  }

  /** On a valid table, removing a slot that is not taken is a no-op. */
  lemma RemoveUnknownIsNoop(m: OriginManager, index: int)
    requires Valid(m)
    requires index !in m.active
    ensures RemoveOrigin(m, index) == m
  {
  }

  /** A full table refuses a registration and is left exactly as it was. */
  lemma FullTableRejects(m: OriginManager, anchor: Anchor)
    requires Valid(m)
    requires |m.active| == Capacity
    ensures AddOrigin(m, anchor) == Registered(m, NullIndex)
  {
    SlotConservation(m);
  }

  /** Registering then unregistering the same anchor gives back the same taken
      slots and origin list; the slot moves from the front of the free queue
      to its back. */
  lemma AddRemoveRoundTrip(m: OriginManager, anchor: Anchor)
    requires Valid(m)
    requires |m.available| > 0
    ensures var added := AddOrigin(m, anchor);
            var r := RemoveOrigin(added.table, added.index);
            && r.active == m.active
            && r.infos == m.infos
            && r.available == m.available[1..] + [m.available[0]]
            && r.positions == m.positions
  {
    var added := AddOrigin(m, anchor);
    var x := added.index;
    var infos := added.table.infos;
    IndexSetAppend(m.infos, OriginInfo(x, anchor));
    assert x !in IndexSet(m.infos);
    var r := RemoveOrigin(added.table, x);
    var k :| FirstAt(infos, x, k) && r.infos == RemoveAt(infos, k);
    assert forall j :: 0 <= j < |m.infos| ==> infos[j].index != x by {
      forall j | 0 <= j < |m.infos| ensures infos[j].index != x {
        assert infos[j] == m.infos[j];
        assert m.infos[j].index in IndexSet(m.infos);
      }
    }
    assert k == |m.infos|;
    assert r.infos == m.infos;
    assert x !in m.active;
  }

  /** Whether or not a slot was free, unregistering whatever index a
      registration handed out restores the taken slots, the origin list and
      the number of free slots. */
  lemma RegisterThenUnregister(m: OriginManager, anchor: Anchor)
    requires Valid(m)
    ensures var added := AddOrigin(m, anchor);
            var r := RemoveOrigin(added.table, added.index);
            && r.active == m.active
            && r.infos == m.infos
            && |r.available| == |m.available|
  {
    if |m.available| > 0 {
      AddRemoveRoundTrip(m, anchor);
    } else {
      assert NullIndex !in IndexSet(m.infos);
    }
  }

  // ---------------------------------------------------------------------------
  // FIFO reuse

  /** The table after several registrations and the indices handed out, in order. */
  datatype Registrations = Registrations(table: OriginManager, indices: seq<int>)

  /** Registers `anchors` one after another, collecting the indices handed out. */
  function AddMany(m: OriginManager, anchors: seq<Anchor>): (r: Registrations)
    ensures |r.indices| == |anchors|
    decreases |anchors|
  {
    if |anchors| == 0 then
      Registrations(m, [])
    else
      var added := AddOrigin(m, anchors[0]);
      var rest := AddMany(added.table, anchors[1..]);
      Registrations(rest.table, [added.index] + rest.indices)
  }

  /** Registrations receive the free slots in queue order; once the queue is
      exhausted every further registration receives `NullIndex`. */
  lemma {:induction false} AddManyIsFifo(m: OriginManager, anchors: seq<Anchor>)
    ensures var r := AddMany(m, anchors);
            forall k :: 0 <= k < |anchors| ==>
              r.indices[k] == if k < |m.available| then m.available[k] else NullIndex
    ensures var r := AddMany(m, anchors);
            |anchors| <= |m.available| ==> r.table.available == m.available[|anchors|..]
    decreases |anchors|
  {
    if |anchors| > 0 {
      var added := AddOrigin(m, anchors[0]);
      AddManyIsFifo(added.table, anchors[1..]);
      var rest := AddMany(added.table, anchors[1..]);
      var r := AddMany(m, anchors);
      assert r.indices == [added.index] + rest.indices;
      forall k | 0 <= k < |anchors|
        ensures r.indices[k] == if k < |m.available| then m.available[k] else NullIndex
      {
        if k > 0 {
          assert r.indices[k] == rest.indices[k - 1];
          if 0 < k < |m.available| {
            assert added.table.available[k - 1] == m.available[k];
          }
        }
      }
      if |anchors| <= |m.available| {
        assert r.table.available == rest.table.available;
        assert added.table.available[|anchors| - 1..] == m.available[|anchors|..];
      }
    }
  }

  /** From a table in its initial state, the first `Capacity` registrations
      receive slots `0, 1, .., Capacity-1` in order and the next one receives
      `NullIndex`, leaving the full table exactly as it was. */
  lemma FreshTableFillsInOrder(m: OriginManager, anchors: seq<Anchor>)
    requires Valid(m)
    requires |m.available| == Capacity
    requires forall i :: 0 <= i < Capacity ==> m.available[i] == i
    requires |anchors| == Capacity + 1
    ensures var r := AddMany(m, anchors[..Capacity]);
            && (forall k :: 0 <= k < Capacity ==> r.indices[k] == k)
            && r.table.available == []
            && Valid(r.table)
            && AddOrigin(r.table, anchors[Capacity]) == Registered(r.table, NullIndex)
  {
    var first := anchors[..Capacity];
    AddManyIsFifo(m, first);
    AddManyPreservesValid(m, first);
    var r := AddMany(m, first);
    assert r.table.available == [];
  }

  lemma {:induction false} AddManyPreservesValid(m: OriginManager, anchors: seq<Anchor>)
    requires Valid(m)
    ensures Valid(AddMany(m, anchors).table)
    decreases |anchors|
  {
    if |anchors| > 0 {
      AddOriginPreservesValid(m, anchors[0]);
      AddManyPreservesValid(AddOrigin(m, anchors[0]).table, anchors[1..]);
    }
  }
}
