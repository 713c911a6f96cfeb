/** The part of a region's Redis the limiter shares with sync: hashes of integer fields, each command
    atomic. The value functions say what one command does; the protocol steps use the same ones. */
module HashStore {
  import opened GCounters

  type Hash = map<string, int>
  type Store = map<string, Hash>

  function HashAt(s: Store, key: string): Hash {
    if key in s then s[key] else map[]
  }

  // A field that is absent reads as 0.
  function Slot(s: Store, key: string, field: string): int {
    Get(HashAt(s, key), field)
  }

  function Incremented(s: Store, key: string, field: string): Store {
    s[key := HashAt(s, key)[field := Slot(s, key, field) + 1]]
  }

  /** The max-merge script on one hash: unlike GCounter.merge it stores a 0 into an absent field. */
  function MergedHash(h: Hash, field: string, value: int): Hash {
    if field !in h || h[field] < value then h[field := value] else h
  }

  function MaxMerged(s: Store, key: string, field: string, value: int): Store {
    var h := HashAt(s, key);
    if field !in h || h[field] < value then s[key := MergedHash(h, field, value)] else s
  }

  class Redis {
    var hashes: Store

    constructor ()
      ensures hashes == map[]
    {
      hashes := map[];
    }

    method HIncrBy(key: string, field: string) returns (slot: int)
      modifies this
      ensures hashes == Incremented(old(hashes), key, field)
      ensures slot == Slot(old(hashes), key, field) + 1
    {
      var h := HashAt(hashes, key);
      slot := Get(h, field) + 1;
      hashes := hashes[key := h[field := slot]];
    }

    method HGetAll(key: string) returns (h: Hash)
      ensures h == HashAt(hashes, key)
    {
      h := HashAt(hashes, key);
    }

    // The script of sync/counter.py, run as one command.
    method MaxMerge(key: string, field: string, value: int) returns (written: bool)
      modifies this
      ensures hashes == MaxMerged(old(hashes), key, field, value)
      ensures !written ==> hashes == old(hashes)
      ensures written <==> field !in HashAt(old(hashes), key) || Slot(old(hashes), key, field) < value
    {
      var h := HashAt(hashes, key);
      if field !in h || h[field] < value {
        hashes := hashes[key := h[field := value]];
        return true;
      }
      return false;
    }
  }

  /** One max-merge of a non-negative value raises exactly one slot of one key, to the larger of the two. */
  lemma MaxMergedSlots(s: Store, key: string, field: string, value: int, k: string, f: string)
    requires value >= 0
    ensures Slot(MaxMerged(s, key, field, value), k, f)
         == if k == key && f == field && value > Slot(s, k, f) then value else Slot(s, k, f)
  {
  }
}
