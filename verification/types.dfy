/** Plain records shared by the particle spawner model.

    Float values of the source (`float`, `float3`, `Color`) are represented by
    `real` components. The model never computes with them: it only copies them
    from one record into another, so no floating-point behaviour is claimed.
 */
module Types {

  /** Stand-in for a nullable reference. */
  datatype Option<+T> = None | Some(value: T)

  /** A `float3`. */
  datatype Vec3 = Vec3(x: real, y: real, z: real)

  const Zero3: Vec3 := Vec3(0.0, 0.0, 0.0)

  /** `new float3(s)`: the same value in all three components. */
  function Uniform(s: real): Vec3
  {
    Vec3(s, s, s)
  }

  /** A `Color` (and the `float4` a colour component stores). */
  datatype Color = Color(r: real, g: real, b: real, a: real)

  const White: Color := Color(1.0, 1.0, 1.0, 1.0)
  const ClearBlack: Color := Color(0.0, 0.0, 0.0, 0.0)

  /** An ECS entity handle; ids come from a fresh-id counter. */
  datatype Entity = Entity(id: nat)

  /** A scene object that reports a world position (`IParticleAnchor`). */
  datatype Anchor = Anchor(id: nat)

  /** The per-particle component `MeshInstanceData`. */
  datatype MeshInstanceData = MeshInstanceData(
    originIndex: int,
    position: Vec3,
    scale: Vec3,
    amplitude: real,
    frequency: real,
    rotateSpeed: real)

  /** `new MeshInstanceData()`: every field zero. */
  const DefaultMesh: MeshInstanceData := MeshInstanceData(0, Zero3, Zero3, 0.0, 0.0, 0.0)

  /** The buffer element `EmitterPositionElement`. */
  datatype EmitterPositionElement = EmitterPositionElement(position: Vec3)

  /** `new EmitterPositionElement()`: the origin. */
  const DefaultPosition: EmitterPositionElement := EmitterPositionElement(Zero3)

  /** No element occurs twice. */
  predicate NoDup<T(==)>(s: seq<T>)
  {
    forall i, j :: 0 <= i < j < |s| ==> s[i] != s[j]
  }

  /** The elements of a sequence, as a set. */
  function Elems<T>(s: seq<T>): set<T>
  {
    set x | x in s
  }

  /** The elements of a sequence with one element in front. */
  lemma ElemsCons<T>(x: T, s: seq<T>)
    ensures Elems([x] + s) == {x} + Elems(s)
  {
    assert forall y :: y in [x] + s <==> y == x || y in s;
  }

  /** A sequence with no repeated element has as many distinct elements as positions. */
  /** The first `n` elements are the head followed by the first `n - 1` of the tail. */
  lemma PrefixCons<T>(s: seq<T>, n: nat)
    requires 0 < n <= |s|
    ensures s[..n] == [s[0]] + s[1..][..n - 1]
  {
  }

  /** Dropping `n` elements is dropping the head and then `n - 1` more. */
  lemma SuffixCons<T>(s: seq<T>, n: nat)
    requires 0 < n <= |s|
    ensures s[n..] == s[1..][n - 1..]
  {
  }

  lemma {:induction false} NoDupCard<T>(s: seq<T>)
    requires NoDup(s)
    ensures |Elems(s)| == |s|
  {
    if |s| > 0 {
      var t := s[..|s| - 1];
      assert NoDup(t);
      NoDupCard(t);
      assert s == t + [s[|s| - 1]];
      assert s[|s| - 1] !in t by {
        forall k | 0 <= k < |t| ensures t[k] != s[|s| - 1] {
          assert s[k] == t[k];
        }
      }
      assert Elems(s) == Elems(t) + {s[|s| - 1]};
    }
  }

  /** Both parts of a sequence without repetitions are without repetitions,
      and no element is in both. */
  lemma NoDupSplit<T>(s: seq<T>, n: nat)
    requires n <= |s|
    requires NoDup(s)
    ensures NoDup(s[..n]) && NoDup(s[n..])
    ensures Elems(s[..n]) !! Elems(s[n..])
  {
    var front, back := s[..n], s[n..];
    assert NoDup(front) by {
      forall a, b | 0 <= a < b < |front| ensures front[a] != front[b] {
        assert front[a] == s[a] && front[b] == s[b];
      }
    }
    assert NoDup(back) by {
      forall a, b | 0 <= a < b < |back| ensures back[a] != back[b] {
        assert back[a] == s[n + a] && back[b] == s[n + b];
      }
    }
    forall x | x in back ensures x !in front {
      var b :| 0 <= b < |back| && back[b] == x;
      forall a | 0 <= a < |front| ensures front[a] != x {
        assert front[a] == s[a] && back[b] == s[n + b];
      }
    }
  }

  /** Dropping the head of a sequence without repetitions leaves one without
      repetitions, and the head is not among the rest. */
  lemma NoDupTail<T>(s: seq<T>)
    requires |s| > 0
    requires NoDup(s)
    ensures NoDup(s[1..])
    ensures s[0] !in s[1..]
  {
    var t := s[1..];
    forall a, b | 0 <= a < b < |t| ensures t[a] != t[b] {
      assert t[a] == s[a + 1] && t[b] == s[b + 1];
    }
    forall k | 0 <= k < |t| ensures t[k] != s[0] {
      assert t[k] == s[k + 1];
    }
  }

  /** The integers `0 .. n-1`, with as many elements as `n`. */
  function Range(n: nat): (r: set<int>)
    ensures forall i :: i in r <==> 0 <= i < n
    ensures |r| == n
  {
    if n == 0 then {} else Range(n - 1) + {n - 1}
  }
}
