/**
 * The server's keyed object cache (accounts, domains, aliases, ...): objects
 * loaded from the database are kept in a map from object name to object and
 * served again while they are younger than the time-to-live.  Hits and misses
 * are counted for the hit-rate statistic.
 *
 * The object type is a parameter.  An object's name and ID (GetName, GetID) are
 * functions fixed when the cache is made.  How old an object is (Seconds) is
 * read from the clock and the database load (ReadObject) is a foreign call:
 * both are given to each lookup as inputs.
 */
module ObjectCache {
  import opened Wrappers
  import opened KeyOrder

  /** The keys of m whose objects have the given ID. */
  function KeysWithId<T>(m: map<string, T>, idOf: T -> int, id: int): set<string>
  {
    set k | k in m && idOf(m[k]) == id
  }

  /**
   * The key a by-ID search finds: walking the map in key order, the first
   * entry whose object has the ID.
   */
  ghost function FirstKeyWithId<T>(m: map<string, T>, idOf: T -> int, id: int): (r: Option<string>)
    ensures r.None? <==> forall k :: k in m ==> idOf(m[k]) != id
    ensures r.Some? ==> r.value in m && idOf(m[r.value]) == id
    ensures r.Some? ==> forall k :: k in m && idOf(m[k]) == id ==> Below(r.value, k)
  {
    var keys := KeysWithId(m, idOf, id);
    if keys == {} then
      assert forall k :: k in m ==> idOf(m[k]) != id by {
        forall k | k in m
          ensures idOf(m[k]) != id
        {
          assert idOf(m[k]) == id ==> k in keys;
        }
      }
      None
    else
      LeastExists(keys);
      var k :| IsLeast(k, keys);
      Some(k)
  }

  class Cache<T> {
    /** GetName(): the key an object is cached under. */
    const nameOf: T -> string
    /** GetID(): the database ID of an object. */
    const idOf: T -> int

    var objects: map<string, T>
    var hits: nat
    var misses: nat
    var ttl: int
    var enabled: bool

    /** Every object is cached under its own name. */
    ghost predicate Valid()
      reads this`objects
    {
      forall k :: k in objects ==> nameOf(objects[k]) == k
    }

    constructor (nameOf: T -> string, idOf: T -> int)
      ensures Valid()
      ensures this.nameOf == nameOf && this.idOf == idOf
      ensures objects == map[] && hits == 0 && misses == 0 && ttl == 0 && !enabled
    {
      this.nameOf := nameOf;
      this.idOf := idOf;
      objects := map[];
      hits := 0;
      misses := 0;
      ttl := 0;
      enabled := false;
    }

    method Clear()
      modifies this`objects, this`hits, this`misses
      ensures Valid()
      ensures objects == map[] && hits == 0 && misses == 0
    {
      objects := map[];
      misses := 0;
      hits := 0;
    }

    /** Sets the time-to-live in seconds and restarts the statistics; cached objects stay. */
    method SetTTL(newVal: int)
      modifies this`ttl, this`hits, this`misses
      ensures ttl == newVal && hits == 0 && misses == 0
    {
      ttl := newVal;
      misses := 0;
      hits := 0;
    }

    /** Disabling empties the cache and restarts the statistics; enabling changes only the flag. */
    method SetEnabled(enable: bool)
      requires Valid()
      modifies this`enabled, this`objects, this`hits, this`misses
      ensures Valid()
      ensures enabled == enable
      ensures !enable ==> objects == map[] && hits == 0 && misses == 0
      ensures enable ==> objects == old(objects) && hits == old(hits) && misses == old(misses)
    {
      enabled := enable;
      if !enabled {
        Clear();
      }
    }

    /**
     * The percentage of lookups served from the cache; 0 before the first hit.
     */
    method GetHitRate() returns (rate: int)
      ensures hits == 0 ==> rate == 0
      ensures 0 <= rate <= 100
      ensures hits > 0 && misses == 0 ==> rate == 100
    {
      if hits == 0 {
        return 0;
      }
      rate := (hits * 100) / (hits + misses);
      DivBounds(hits, misses);
    }

    /** Removes the entry cached under the object's name, if any. */
    method RemoveObject(obj: T)
      requires Valid()
      modifies this`objects
      ensures Valid()
      ensures objects == old(objects) - {nameOf(obj)}
    {
      var name := nameOf(obj);
      if name in objects {
        objects := objects - {name};
      }
    }

    /** Removes the entry with the given name, if any. */
    method RemoveObjectByName(name: string)
      requires Valid()
      modifies this`objects
      ensures Valid()
      ensures objects == old(objects) - {name}
    {
      if name in objects {
        objects := objects - {name};
      }
    }

    /** Removes the first entry, in key order, whose object has the ID; at most one entry goes. */
    method RemoveObjectById(id: int)
      requires Valid()
      modifies this`objects
      ensures Valid()
      ensures FirstKeyWithId(old(objects), idOf, id).None? ==> objects == old(objects)
      ensures FirstKeyWithId(old(objects), idOf, id).Some? ==>
        objects == old(objects) - {FirstKeyWithId(old(objects), idOf, id).value}
    {
      var remaining := objects.Keys;
      while remaining != {}
        invariant remaining <= objects.Keys
        invariant objects == old(objects)
        invariant forall k :: k in objects && k !in remaining ==> idOf(objects[k]) != id
        decreases |remaining|
      {
        LeastExists(remaining);
        var key :| IsLeast(key, remaining);
        if idOf(objects[key]) == id {
          FirstIsLeastRemaining(key, remaining, id);
          objects := objects - {key};
          return;
        }
        remaining := remaining - {key};
      }
    }

    /** The entry found while walking the map is the one FirstKeyWithId names. */
    lemma FirstIsLeastRemaining(key: string, remaining: set<string>, id: int)
      requires remaining <= objects.Keys && IsLeast(key, remaining) && idOf(objects[key]) == id
      requires forall k :: k in objects && k !in remaining ==> idOf(objects[k]) != id
      ensures FirstKeyWithId(objects, idOf, id) == Some(key)
    {
      var first := FirstKeyWithId(objects, idOf, id).value;
      var keys := KeysWithId(objects, idOf, id);
      assert IsLeast(first, keys);
      assert IsLeast(key, keys) by {
        forall k | k in keys
          ensures Below(key, k)
        {
          assert k in remaining;
        }
      }
      LeastUnique(first, key, keys);
    }

    /**
     * Looks an object up by name.  A cached object younger than the
     * time-to-live is a hit; a stale one is dropped.  Otherwise the object is
     * loaded (loaded is the database's answer) and, when the cache is enabled,
     * cached under its own name as a miss.  ageOf gives each object's age in
     * seconds at the time of the call.
     */
    method GetObjectByName(name: string, ageOf: T -> int, loaded: Option<T>) returns (result: Option<T>)
      requires Valid()
      modifies this`objects, this`hits, this`misses
      ensures Valid()
      ensures enabled && name in old(objects) && ageOf(old(objects)[name]) < ttl ==>
        && result == Some(old(objects)[name]) && nameOf(result.value) == name
        && objects == old(objects) && hits == old(hits) + 1 && misses == old(misses)
      ensures !(enabled && name in old(objects) && ageOf(old(objects)[name]) < ttl) ==>
        var kept := if enabled then old(objects) - {name} else old(objects);
        && result == loaded && hits == old(hits)
        && if enabled && loaded.Some? then
             objects == kept[nameOf(loaded.value) := loaded.value] && misses == old(misses) + 1
           else
             objects == kept && misses == old(misses)
    {
      if enabled {
        if name in objects {
          var obj := objects[name];
          var withinTTL := GetObjectIsWithinTTL(obj, ageOf);
          if withinTTL {
            return Some(obj);
          }
          objects := objects - {name};
        }
      }

      if loaded.None? {
        return None;
      }
      if enabled {
        AddToCache(loaded.value);
      }
      return loaded;
    }

    /**
     * Looks an object up by ID: the first entry in key order with that ID is
     * examined; a fresh one is a hit, a stale one is dropped before loading.
     */
    method GetObjectById(id: int, ageOf: T -> int, loaded: Option<T>) returns (result: Option<T>)
      requires Valid()
      modifies this`objects, this`hits, this`misses
      ensures Valid()
      ensures var first := FirstKeyWithId(old(objects), idOf, id);
        enabled && first.Some? && ageOf(old(objects)[first.value]) < ttl ==>
        && result == Some(old(objects)[first.value]) && idOf(result.value) == id
        && objects == old(objects) && hits == old(hits) + 1 && misses == old(misses)
      ensures var first := FirstKeyWithId(old(objects), idOf, id);
        !(enabled && first.Some? && ageOf(old(objects)[first.value]) < ttl) ==>
        var kept := if enabled && first.Some? then old(objects) - {first.value} else old(objects);
        && result == loaded && hits == old(hits)
        && if enabled && loaded.Some? then
             objects == kept[nameOf(loaded.value) := loaded.value] && misses == old(misses) + 1
           else
             objects == kept && misses == old(misses)
    {
      if enabled {
        var remaining := objects.Keys;
        while remaining != {}
          invariant remaining <= objects.Keys
          invariant objects == old(objects) && hits == old(hits) && misses == old(misses)
          invariant forall k :: k in objects && k !in remaining ==> idOf(objects[k]) != id
          decreases |remaining|
        {
          LeastExists(remaining);
          var key :| IsLeast(key, remaining);
          var obj := objects[key];
          if idOf(obj) == id {
            FirstIsLeastRemaining(key, remaining, id);
            var withinTTL := GetObjectIsWithinTTL(obj, ageOf);
            if withinTTL {
              return Some(obj);
            }
            objects := objects - {key};
            break;
          }
          remaining := remaining - {key};
        }
      }

      if loaded.None? {
        return None;
      }
      if enabled {
        AddToCache(loaded.value);
      }
      return loaded;
    }

    /** Caches a freshly loaded object under its name and counts a miss. */
    method AddToCache(obj: T)
      requires Valid()
      modifies this`objects, this`misses
      ensures Valid()
      ensures objects == old(objects)[nameOf(obj) := obj]
      ensures misses == old(misses) + 1
    {
      misses := misses + 1;
      objects := objects[nameOf(obj) := obj];
    }

    /** Whether a cached object is younger than the time-to-live; counts a hit when it is. */
    method GetObjectIsWithinTTL(obj: T, ageOf: T -> int) returns (withinTTL: bool)
      modifies this`hits
      ensures withinTTL == (ageOf(obj) < ttl)
      ensures hits == old(hits) + (if withinTTL then 1 else 0)
    {
      if ageOf(obj) < ttl {
        hits := hits + 1;
        return true;
      }
      return false;
    }
  }

  lemma DivBounds(hits: nat, misses: nat)
    requires hits > 0
    ensures 0 <= (hits * 100) / (hits + misses) <= 100
    ensures misses == 0 ==> (hits * 100) / (hits + misses) == 100
  {
  }
}
