/**
  Version-tag response cache of src/middleware/httpCache.js with the mutations of
  src/controllers/crudController.js that bust it.  `CacheService` holds the shared key-value store
  and runs each operation without interruption; ResponseFreshness.dfy interleaves their stretches.
*/
module ResponseCache {
  import opened CacheKeys

  /** A cached value: a version counter or a response body. */
  datatype Stored = Version(n: nat) | Body(text: string)

  type Store = map<string, Stored>

  /** getVersion: a counter never set counts as 0. */
  function VersionOf(store: Store, scope: Scope): nat {
    if VersionKey(scope) in store && store[VersionKey(scope)].Version? then store[VersionKey(scope)].n else 0
  }

  /** The cached body for a request that read `version`. */
  function Cached(store: Store, scope: Scope, version: nat, qs: string): (found: Store)
    ensures found.Keys <= {ResponseKey(scope, version, qs)}
  {
    var key := ResponseKey(scope, version, qs);
    if key in store && store[key].Body? then map[key := store[key]] else map[]
  }

  class CacheService {
    var store: Store

    constructor ()
      ensures store == map[]
    {
      store := map[];
    }

    method GetVersion(scope: Scope) returns (v: nat)
      ensures v == VersionOf(store, scope)
    {
      var key := VersionKey(scope);
      v := 0;
      if key in store {
        match store[key] {
          case Version(n) => v := n;
          case Body(_) =>
        }
      }
    }

    /** An uninterrupted bust moves its own counter by one and leaves every response and every other
        counter alone. */
    method BustCache(scope: Scope)
      modifies this
      ensures VersionOf(store, scope) == VersionOf(old(store), scope) + 1
      ensures forall other: Scope :: other != scope ==> VersionOf(store, other) == VersionOf(old(store), other)
      ensures forall other: Scope, v: nat, qs: string ::
                Cached(store, other, v, qs) == Cached(old(store), other, v, qs)
    {
      var current := GetVersion(scope);
      store := store[VersionKey(scope) := Version(current + 1)];
      forall other: Scope | other != scope ensures VersionOf(store, other) == VersionOf(old(store), other) {
        if VersionKey(other) == VersionKey(scope) {
          VersionKeyInjective(other, scope);
        }
      }
      forall other: Scope, v: nat, qs: string
        ensures Cached(store, other, v, qs) == Cached(old(store), other, v, qs)
      {
        KeyKindsDiffer(scope, other, v, qs);
      }
    }

    /** An uninterrupted GET of a handler that answers `rendered`: a hit returns what is stored under the
        current version, a miss stores a 2xx body there and nothing else. */
    method Get(scope: Scope, keys: seq<string>, query: Query, rendered: string, success: bool)
      returns (body: string, hit: bool)
      modifies this
      ensures var key := ResponseKey(scope, VersionOf(old(store), scope), QueryString(keys, query));
              && (hit <==> key in old(store) && old(store)[key].Body?)
              && (hit ==> body == old(store)[key].text && store == old(store))
              && (!hit ==> body == rendered && store == (if success then old(store)[key := Body(rendered)] else old(store)))
      ensures forall other: Scope :: VersionOf(store, other) == VersionOf(old(store), other)
    {
      var qs := QueryString(keys, query);
      var version := GetVersion(scope);
      var key := ResponseKey(scope, version, qs);
      if key in store && store[key].Body? {
        return store[key].text, true;
      }
      body, hit := rendered, false;
      if success {
        store := store[key := Body(body)];
        forall other: Scope ensures VersionOf(store, other) == VersionOf(old(store), other) {
          KeyKindsDiffer(other, scope, version, qs);
        }
      }
    }
  }
}
