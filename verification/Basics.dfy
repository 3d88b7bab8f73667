/** Notions several components share. */
module Basics {

  /** No two values have the same digest. */
  ghost predicate CollisionFree<A(!new), D(!new)>(digest: A -> D) {
    forall x, y :: digest(x) == digest(y) ==> x == y
  }

  /** A root-owned file: its document and its group, which a rewrite sets to the writer's own. */
  datatype Kept<T> = Kept(document: T, gid: nat)

  /** Python's `s[-n:]` for a positive n. */
  function Last<T>(s: seq<T>, n: nat): seq<T> {
    if |s| <= n then s else s[|s| - n..]
  }

  lemma SplitLast<T>(s: seq<T>)
    requires |s| > 0
    ensures s == s[..|s| - 1] + [s[|s| - 1]]
  {
  }

  function Flatten<T>(parts: seq<seq<T>>): seq<T> {
    if |parts| == 0 then [] else Flatten(parts[..|parts| - 1]) + parts[|parts| - 1]
  }

  lemma FlattenAppend<T>(parts: seq<seq<T>>, part: seq<T>)
    ensures Flatten(parts + [part]) == Flatten(parts) + part
  {
    assert (parts + [part])[..|parts|] == parts;
  }

  lemma {:induction false} FlattenJoin<T>(a: seq<seq<T>>, b: seq<seq<T>>)
    ensures Flatten(a + b) == Flatten(a) + Flatten(b)
  {
    if |b| == 0 {
      assert a + b == a;
    } else {
      var n := |b| - 1;
      FlattenJoin(a, b[..n]);
      assert a + b == (a + b[..n]) + [b[n]];
      FlattenAppend(a + b[..n], b[n]);
    }
  }
}
