/**
 * The JSON values the handlers hand to `jsonify`, and the Python dicts they
 * fill in: an object is a list of key/value pairs in insertion order, which
 * is the order `jsonify` writes them in once key sorting is switched off.
 */
module Json {
  import opened Wrappers

  datatype Value = Null | Int(i: int) | Number(x: real) | Text(s: string)

  type Object = seq<(string, Value)>

  /** A nullable database number as JSON: `None` becomes `null`. */
  function Nullable(x: Option<real>): Value {
    match x
    case None => Null
    case Some(v) => Number(v)
  }

  function Keys(o: Object): (ks: seq<string>)
    ensures |ks| == |o|
  {
    seq(|o|, i requires 0 <= i < |o| => o[i].0)
  }

  /** A dict never holds one key twice. */
  predicate UniqueKeys(o: Object) {
    forall i, j | 0 <= i < j < |o| :: o[i].0 != o[j].0
  }

  /** `o[k]`, or None when `k` is not a key. */
  function Lookup(o: Object, k: string): Option<Value> {
    if o == [] then None
    else if o[0].0 == k then Some(o[0].1)
    else Lookup(o[1..], k)
  }

  /**
   * The statement `o[k] = v` on a Python dict: a new key goes to the end, an
   * existing key keeps its place and gets the new value.
   */
  function Put(o: Object, k: string, v: Value): (r: Object)
    ensures k !in Keys(o) ==> Keys(r) == Keys(o) + [k]
    ensures k in Keys(o) ==> Keys(r) == Keys(o)
  {
    if k in Keys(o) then Replace(o, k, v) else o + [(k, v)]
  }

  /** The first entry under `k`, if any, gets the value `v`; no entry moves. */
  function Replace(o: Object, k: string, v: Value): (r: Object)
    ensures |r| == |o| && forall i | 0 <= i < |o| :: r[i].0 == o[i].0
  {
    if o == [] then []
    else if o[0].0 == k then [(k, v)] + o[1..]
    else [o[0]] + Replace(o[1..], k, v)
  }

  /** Looking up in a dict after a new key was appended to it. */
  lemma {:induction false} LookupAppend(o: Object, k: string, v: Value, j: string)
    requires k !in Keys(o)
    ensures Lookup(o + [(k, v)], j) == if j == k then Some(v) else Lookup(o, j)
  {
    if o != [] {
      assert (o + [(k, v)])[1..] == o[1..] + [(k, v)];
      assert Keys(o)[0] == o[0].0;
      assert forall i | 0 <= i < |o| - 1 :: Keys(o[1..])[i] == Keys(o)[i + 1];
      LookupAppend(o[1..], k, v, j);
    }
  }

  /** Looking up in a dict after the value under an existing key was replaced. */
  lemma {:induction false} LookupReplace(o: Object, k: string, v: Value, j: string)
    requires k in Keys(o)
    ensures Lookup(Replace(o, k, v), j) == if j == k then Some(v) else Lookup(o, j)
  {
    if o[0].0 != k {
      var i :| 0 <= i < |o| && Keys(o)[i] == k;
      assert i > 0 && Keys(o[1..])[i - 1] == k;
      assert [o[0]] + Replace(o[1..], k, v) == Replace(o, k, v);
      LookupReplace(o[1..], k, v, j);
    }
  }

  /** After `o[k] = v`, `k` holds `v` and every other key what it held. */
  lemma PutLookup(o: Object, k: string, v: Value)
    ensures Lookup(Put(o, k, v), k) == Some(v)
    ensures forall j :: j != k ==> Lookup(Put(o, k, v), j) == Lookup(o, j)
  {
    if k in Keys(o) {
      LookupReplace(o, k, v, k);
      forall j | j != k ensures Lookup(Put(o, k, v), j) == Lookup(o, j) {
        LookupReplace(o, k, v, j);
      }
    } else {
      LookupAppend(o, k, v, k);
      forall j | j != k ensures Lookup(Put(o, k, v), j) == Lookup(o, j) {
        LookupAppend(o, k, v, j);
      }
    }
  }

  /** `o[k] = v` keeps a dict free of repeated keys. */
  lemma PutKeepsKeysUnique(o: Object, k: string, v: Value)
    requires UniqueKeys(o)
    ensures UniqueKeys(Put(o, k, v))
  {
    if k !in Keys(o) {
      assert forall i | 0 <= i < |o| :: Keys(o)[i] == o[i].0;
    }
  }
}
