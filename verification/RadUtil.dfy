/** Helpers of bindings/python/rad_util.py used by the graph functions. */
module RadUtil {
  import opened Digraph

  /** What a Python call gives back: a value, or the IndexError of reading an empty list. */
  datatype Lookup<T> = Value(value: T) | IndexError

  /** Indices at which head occurs in s, in order. */
  method StartIndexes<T(==)>(s: seq<T>, head: T) returns (indexes: seq<nat>)
    ensures forall j :: 0 <= j < |indexes| ==> indexes[j] < |s| && s[indexes[j]] == head
    ensures forall k: nat :: k < |s| && s[k] == head ==> k in indexes
  {
    indexes := [];
    for i := 0 to |s|
      invariant forall j :: 0 <= j < |indexes| ==> indexes[j] < |s| && s[indexes[j]] == head
      invariant forall k: nat :: k < i && s[k] == head ==> k in indexes
    {
      if s[i] == head {
        indexes := indexes + [i];
      }
    }
  }

  /** Doubled and sliced, a list shows each of its rotations. */
  lemma DoubledSlice<T>(s: seq<T>, k: nat)
    requires k < |s|
    ensures (s + s)[k..k + |s|] == Rotate(s, k)
  {
  }

  method IsRotated<T(==)>(seq1: seq<T>, seq2: seq<T>) returns (r: Lookup<bool>)
    ensures r.IndexError? <==> seq1 == [] && seq2 == []
    ensures r.Value? ==> (r.value <==> Rotation(seq1, seq2))
  {
    if |seq1| != |seq2| {
      return Value(false);
    }
    if seq2 == [] {
      return IndexError;
    }
    var starts := StartIndexes(seq1, seq2[0]);
    var doubled := seq1 + seq1;
    for i := 0 to |starts|
      invariant forall j :: 0 <= j < i ==> seq2 != Rotate(seq1, starts[j])
    {
      DoubledSlice(seq1, starts[i]);
      if doubled[starts[i]..starts[i] + |seq1|] == seq2 {
        return Value(true);
      }
    }
    forall k: nat | k < |seq1|
      ensures seq2 != Rotate(seq1, k)
    {
      if seq1[k] == seq2[0] {
        assert k in starts;
      } else {
        assert Rotate(seq1, k)[0] == seq1[k];
      }
    }
    return Value(false);
  }
}
