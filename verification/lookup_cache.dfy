/** The cache in front of `get_most_specific_ann`. It is one dictionary
    shared by every AS of the class, keyed by the destination and the tuple
    of the asking AS's RIB keys, and holding the most specific key found.
    Only RIBs with fewer than 10 keys are cached, and the cache is meant to
    stay at no more than 10 entries. Python dictionaries keep insertion
    order, so the cache is a list of entries with distinct keys. */
module LookupCache {
  import opened Wrappers
  import opened Prefixes
  import opened Policies

  datatype CacheKey = CacheKey(dest: Prefix, keys: seq<Prefix>)
  datatype Entry = Entry(key: CacheKey, value: Option<Prefix>)
  type Cache = seq<Entry>

  /** RIBs with this many keys or more are not cached. */
  const RibLimit: nat := 10
  /** The cache is trimmed once it holds more than this many entries. */
  const CacheLimit: nat := 10

  predicate KeysDistinct(c: Cache) {
    forall i, j :: 0 <= i < j < |c| ==> c[i].key != c[j].key
  }

  /** Every cached value is what the uncached lookup gives for its key. */
  predicate Sound(c: Cache) {
    forall i :: 0 <= i < |c| ==> c[i].value == MostSpecificPrefix(c[i].key.keys, c[i].key.dest)
  }

  /** The position of `k` in the cache. */
  function Find(c: Cache, k: CacheKey): (r: Option<nat>)
    ensures r.None? <==> forall i :: 0 <= i < |c| ==> c[i].key != k
    ensures r.Some? ==> r.value < |c| && c[r.value].key == k
  {
    if |c| == 0 then None
    else if c[|c| - 1].key == k then Some(|c| - 1)
    else
      var r := Find(c[..|c| - 1], k);
      assert forall i :: 0 <= i < |c| - 1 ==> c[..|c| - 1][i] == c[i];
      r
  }

  /** `cache.get(k)`: the stored value, or None for a missing key. */
  function Get(c: Cache, k: CacheKey): (r: Option<Prefix>)
    ensures Sound(c) ==> r.None? || r == MostSpecificPrefix(k.keys, k.dest)
  {
    match Find(c, k)
    case None => None
    case Some(i) => c[i].value
  }

  /** `cache[k] = v`: an existing key keeps its place, a new one goes last. */
  function Put(c: Cache, k: CacheKey, v: Option<Prefix>): (r: Cache)
    requires KeysDistinct(c)
    ensures KeysDistinct(r)
    ensures |r| == (if Find(c, k).Some? then |c| else |c| + 1)
    ensures Sound(c) && v == MostSpecificPrefix(k.keys, k.dest) ==> Sound(r)
  {
    match Find(c, k)
    case Some(i) => c[i := Entry(k, v)]
    case None => c + [Entry(k, v)]
  }

  /** The answer of one lookup and the cache after it. */
  datatype Outcome = Outcome(answer: Result<Option<Prefix>>, cache: Cache)

  /** `get_most_specific_ann` as written: a RIB below the limit is looked
      up, a miss (or a cached None) is computed, the result is stored, and
      once the cache exceeds its limit `pop()` is called without a key,
      which raises TypeError after the store has happened. */
  function CachedLookupAsWritten(c: Cache, keys: seq<Prefix>, dest: Prefix): (o: Outcome)
    requires KeysDistinct(c)
    ensures KeysDistinct(o.cache)
    ensures Sound(c) ==> Sound(o.cache)
    ensures Sound(c) && o.answer.Ok? ==> o.answer.value == MostSpecificPrefix(keys, dest)
    ensures o.answer.Err? <==> |keys| < RibLimit && |o.cache| > CacheLimit
    ensures o.answer.Err? ==> o.answer.error == TypeError
  {
    var k := CacheKey(dest, keys);
    var hit := if |keys| < RibLimit then Get(c, k) else None;
    var msp := if hit.Some? then hit else MostSpecificPrefix(keys, dest);
    if |keys| < RibLimit then
      var c2 := Put(c, k, msp);
      if |c2| > CacheLimit then Outcome(Err(TypeError), c2) else Outcome(Ok(msp), c2)
    else Outcome(Ok(msp), c)
  }

  /** The eleventh distinct key asked for from a small RIB raises TypeError,
      and from then on every lookup from a small RIB raises it too. */
  lemma AsWrittenOverflowRaises(c: Cache, keys: seq<Prefix>, dest: Prefix)
    requires KeysDistinct(c) && |keys| < RibLimit
    requires |c| > CacheLimit || (|c| == CacheLimit && Find(c, CacheKey(dest, keys)).None?)
    ensures CachedLookupAsWritten(c, keys, dest).answer == Err(TypeError)
    ensures |CachedLookupAsWritten(c, keys, dest).cache| > CacheLimit
  {
  }

  /** Evicting the oldest entry, the cache that `pop()` evidently meant to
      keep within its limit. */
  function CachedLookup(c: Cache, keys: seq<Prefix>, dest: Prefix): (o: Outcome)
    requires KeysDistinct(c)
    ensures KeysDistinct(o.cache)
    ensures o.answer.Ok?
    ensures Sound(c) ==> Sound(o.cache) && o.answer.value == MostSpecificPrefix(keys, dest)
    ensures |c| <= CacheLimit ==> |o.cache| <= CacheLimit
  {
    var k := CacheKey(dest, keys);
    var hit := if |keys| < RibLimit then Get(c, k) else None;
    var msp := if hit.Some? then hit else MostSpecificPrefix(keys, dest);
    if |keys| < RibLimit then
      var c2 := Put(c, k, msp);
      Outcome(Ok(msp), if |c2| > CacheLimit then c2[1..] else c2)
    else Outcome(Ok(msp), c)
  }

  /** Where the written lookup answers, it answers as the corrected one
      does. */
  lemma AsWrittenAgreesWhenItAnswers(c: Cache, keys: seq<Prefix>, dest: Prefix)
    requires KeysDistinct(c)
    requires CachedLookupAsWritten(c, keys, dest).answer.Ok?
    ensures CachedLookupAsWritten(c, keys, dest) == CachedLookup(c, keys, dest)
  {
  }
}
