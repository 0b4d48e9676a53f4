// Putting a sequence in the place of part of another, front to back.
module Sequences {

  /** What is there when `k` items of `data` have been put over what was there from `start` on. */
  ghost function Patched<T>(items: seq<T>, start: nat, data: seq<T>, k: nat): (r: seq<T>)
    requires start + |data| <= |items| && k <= |data|
    ensures |r| == |items|
  {
    items[..start] + data[..k] + items[start + k..]
  }

  lemma PatchedNext<T>(items: seq<T>, start: nat, data: seq<T>, k: nat)
    requires start + |data| <= |items| && k < |data|
    ensures Patched(items, start, data, k + 1) == Patched(items, start, data, k)[start + k := data[k]]
  {
  }

  lemma PatchedNone<T>(items: seq<T>, start: nat, data: seq<T>)
    requires start + |data| <= |items|
    ensures Patched(items, start, data, 0) == items
  {
  }

  lemma PatchedAll<T>(items: seq<T>, start: nat, data: seq<T>)
    requires start + |data| <= |items|
    ensures var r, end := Patched(items, start, data, |data|), start + |data|;
      r[start..end] == data && r[..start] == items[..start] && r[end..] == items[end..]
  {
  }
}
