/**
  The append-only string store `token::string_manager` (code/common/script/tokenizer.h:27-44).
  String and tag tokens hold an index into it instead of owning their text.
 */
module StringManager {
  import opened Wrappers

  /** What `get` throws (`std::vector::at` raises `std::out_of_range`). */
  datatype OutOfRange = OutOfRange(index: nat)

  /** Entry `i` is the string passed to the `i`-th call of `set` (counting from 0). */
  datatype Manager = Manager(entries: seq<string>)

  const Empty: Manager := Manager([])

  function Size(m: Manager): nat
  {
    |m.entries|
  }

  /** `get(idx)`: the stored string, or out_of_range for an index `set` has not handed out. */
  function Get(m: Manager, idx: nat): (r: Result<string, OutOfRange>)
    ensures r.Failure? <==> idx >= Size(m)
    ensures r.Failure? ==> r.error == OutOfRange(idx)
  {
    if idx < |m.entries| then Success(m.entries[idx]) else Failure(OutOfRange(idx))
  }

  /** `set(str)`: append, returning the size before the append as the new index. */
  function Set(m: Manager, s: string): (r: (Manager, nat))
    ensures r.1 == Size(m)
    ensures Size(r.0) == Size(m) + 1
    ensures Get(r.0, r.1) == Success(s)
    ensures forall i: nat :: i < Size(m) ==> Get(r.0, i) == Get(m, i)
  {
    (Manager(m.entries + [s]), |m.entries|)
  }

  /** A run of `set` calls, one per element of `ss`, in order; yields the final store and the indices handed out. */
  function SetAll(m: Manager, ss: seq<string>): (r: (Manager, seq<nat>))
    decreases |ss|
  {
    if |ss| == 0 then (m, [])
    else
      var (m1, i) := Set(m, ss[0]);
      var (m2, rest) := SetAll(m1, ss[1..]);
      (m2, [i] + rest)
  }

  /**
    Indices are handed out as consecutive integers in call order, each one reads back
    the string it was handed out for, and no later `set` changes what an earlier index reads.
   */
  lemma {:induction false} SetAllIndices(m: Manager, ss: seq<string>)
    ensures |SetAll(m, ss).1| == |ss|
    ensures Size(SetAll(m, ss).0) == Size(m) + |ss|
    ensures forall k :: 0 <= k < |ss| ==> SetAll(m, ss).1[k] == Size(m) + k
    ensures forall k :: 0 <= k < |ss| ==> Get(SetAll(m, ss).0, Size(m) + k) == Success(ss[k])
    ensures forall i: nat :: i < Size(m) ==> Get(SetAll(m, ss).0, i) == Get(m, i)
    decreases |ss|
  {
    if |ss| > 0 {
      var (m1, i) := Set(m, ss[0]);
      SetAllIndices(m1, ss[1..]);
      var r := SetAll(m, ss);
      assert r.0 == SetAll(m1, ss[1..]).0;
      forall k | 0 < k < |ss|
        ensures Get(r.0, Size(m) + k) == Success(ss[k])
      {
        assert Size(m) + k == Size(m1) + (k - 1);
        assert ss[1..][k - 1] == ss[k];
      }
    }
  }
}
