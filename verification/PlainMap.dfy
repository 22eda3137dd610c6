/**
 What clients see: they compute the hash from the key, so the answers of the tablet's map, whose keys
 carry a bucket number, are those of a plain map from keys to values.
 */
module PlainMap {
  import opened Bytes
  import opened HashChains
  import opened Tablets
  import opened Serving

  type Store = map<seq<Byte>, seq<Byte>>

  ghost function PlainAnswer(m: Store, r: Request): (Response, Store) {
    match r
    case Put(_, key, val) => (Response(OK, []), m[key := val])
    case Add(_, key, val) => if key in m then (Response(ERROR, []), m) else (Response(OK, []), m[key := val])
    case Get(_, key) => (if key in m then Response(OK, m[key]) else Response(ERROR, []), m)
    case Del(_, key) => (Response(if key in m then OK else ERROR, []), m - {key})
  }

  ghost function StoreAfter(m: Store, rs: seq<Request>, n: nat): Store
    requires n <= |rs|
  {
    if n == 0 then m else PlainAnswer(StoreAfter(m, rs, n - 1), rs[n - 1]).1
  }

  ghost function Located(hash: seq<Byte> -> nat, k: seq<Byte>): Key {
    (BucketOf(hash(k)), k)
  }

  /** The tablet's map holds the same values, each key in the bucket its hash names. */
  ghost predicate Agrees(hash: seq<Byte> -> nat, c: Contents, m: Store) {
    forall k {:trigger Located(hash, k)} :: (k in m <==> Located(hash, k) in c) &&
      (k in m ==> m[k] == c[Located(hash, k)])
  }

  ghost predicate Hashed(hash: seq<Byte> -> nat, rs: seq<Request>) {
    forall i :: 0 <= i < |rs| ==> rs[i].hash == hash(rs[i].key)
  }

  lemma StepAgrees(hash: seq<Byte> -> nat, c: Contents, m: Store, r: Request)
    requires Agrees(hash, c, m) && r.hash == hash(r.key)
    ensures Answer(c, r).0 == PlainAnswer(m, r).0
    ensures Agrees(hash, Answer(c, r).1, PlainAnswer(m, r).1)
  {
    assert Located(hash, r.key) == (BucketOf(r.hash), r.key);
    hide BucketOf;
  }

  lemma {:induction false} RunAgrees(hash: seq<Byte> -> nat, c: Contents, m: Store, rs: seq<Request>, n: nat)
    requires Agrees(hash, c, m) && Hashed(hash, rs) && n <= |rs|
    ensures Agrees(hash, MapAfter(c, rs, n), StoreAfter(m, rs, n))
  {
    hide Agrees;
    if n > 0 {
      RunAgrees(hash, c, m, rs, n - 1);
      StepAgrees(hash, MapAfter(c, rs, n - 1), StoreAfter(m, rs, n - 1), rs[n - 1]);
    }
  }

  /** From an empty tablet, every response is the one a plain map would give. */
  lemma PlainAnswers(hash: seq<Byte> -> nat, rs: seq<Request>, n: nat)
    requires Hashed(hash, rs) && n < |rs|
    ensures AnswerTo(map[], rs, n) == PlainAnswer(StoreAfter(map[], rs, n), rs[n]).0
  {
    RunAgrees(hash, map[], map[], rs, n);
    hide Agrees;
    StepAgrees(hash, MapAfter(map[], rs, n), StoreAfter(map[], rs, n), rs[n]);
  }
}
