/**
 The JSON values a ledger document is made of, and the dictionary look-up the broker
 compares documents through.
 */
module Json {

  /** `Instant(text, at)` is a string that the time parser accepts, with the second it denotes. */
  datatype Value =
    | Null
    | Bool(b: bool)
    | Num(n: int)
    | Str(s: string)
    | Instant(text: string, at: int)
    | Arr(items: seq<Value>)
    | Obj(fields: Dict)

  type Dict = map<string, Value>

  datatype Result<+T> = Ok(value: T) | Err

  /** `d.get(k)`: a missing key reads as null. */
  function Get(d: Dict, k: string): Value {
    if k in d then d[k] else Null
  }

  /** `a` and `b` read the same at every key of either one that is not in `free`. */
  predicate AgreeOutside(a: Dict, b: Dict, free: set<string>) {
    forall k | k in a.Keys + b.Keys :: k !in free ==> Get(a, k) == Get(b, k)
  }

  lemma AgreeOutsideAt(a: Dict, b: Dict, free: set<string>, k: string)
    requires AgreeOutside(a, b, free) && k !in free
    ensures Get(a, k) == Get(b, k)
  {
    if k !in a.Keys + b.Keys {
      assert k !in a && k !in b;
    }
  }

  lemma AgreeOutsideTransitive(a: Dict, b: Dict, c: Dict, free: set<string>)
    requires AgreeOutside(a, b, free) && AgreeOutside(b, c, free)
    ensures AgreeOutside(a, c, free)
  {
    forall k | k in a.Keys + c.Keys && k !in free
      ensures Get(a, k) == Get(c, k)
    {
      AgreeOutsideAt(a, b, free, k);
      AgreeOutsideAt(b, c, free, k);
    }
  }
}
