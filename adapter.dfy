/**
 * The in-memory storage adapter: a map from ids to documents that `getData` reads
 * (creating an empty document for a missing or falsy entry) and `storeData`
 * overwrites. Its callbacks run before the calls return, so they become return values.
 */
module MemoryAdapter {
  import opened Wrappers
  import opened DiffEngine

  /** The JSON values JavaScript treats as false in `if(!data)`. */
  predicate Falsy(d: Json)
  {
    d == Null || d == Bool(false) || d == Num(0) || d == Str("")
  }

  /** The document `getData(id)` hands to its callback for a given cache. */
  function Lookup(cache: map<string, Json>, id: string): (d: Json)
    ensures !Falsy(d)
    ensures id in cache && !Falsy(cache[id]) ==> d == cache[id]
    ensures id !in cache || Falsy(cache[id]) ==> d == EmptyDoc
  {
    if id in cache && !Falsy(cache[id]) then cache[id] else EmptyDoc
  }

  /** A document stored under an id is what the next load of that id returns, unless
      it is falsy, in which case the load yields an empty document. */
  lemma StoreThenLoad(cache: map<string, Json>, id: string, d: Json)
    ensures !Falsy(d) ==> Lookup(cache[id := d], id) == d
    ensures Falsy(d) ==> Lookup(cache[id := d], id) == EmptyDoc
  {
  }

  /** Storing under one id never changes what another id loads. */
  lemma StoreKeepsOthers(cache: map<string, Json>, id: string, other: string, d: Json)
    requires other != id
    ensures Lookup(cache[id := d], other) == Lookup(cache, other)
  {
  }

  class InMemoryDataAdapter {
    var cache: map<string, Json>

    /** `new InMemoryDataAdapter(cache)`: a missing cache starts empty. */
    constructor (cache: Option<map<string, Json>>)
      ensures this.cache == if cache.Some? then cache.value else map[]
    {
      this.cache := if cache.Some? then cache.value else map[];
    }

    /** `getData(id, cb)`: the entry for `id`, after replacing a missing or falsy one
        by an empty document; every other entry is left alone. */
    method GetData(id: string) returns (d: Json)
      modifies this
      ensures d == Lookup(old(cache), id)
      ensures cache == old(cache)[id := d]
    {
      var data := if id in cache then cache[id] else Null;
      if Falsy(data) {
        cache := cache[id := EmptyDoc];
      }
      d := cache[id];
    }

    /** `storeData(id, data, cb)`: overwrite the entry; the callback, when given, is
        acknowledged. */
    method StoreData(id: string, data: Json, callbackGiven: bool) returns (acknowledged: bool)
      modifies this
      ensures cache == old(cache)[id := data]
      ensures acknowledged == callbackGiven
    {
      cache := cache[id := data];
      acknowledged := callbackGiven;
    }
  }
}
