/**
 * The session registry: the process-wide `socketMap` (src/index.ts:24), a
 * JavaScript `Map` from identifier to socket.  The model keeps its entries as
 * a `map` and, beside it, the sequence of its keys in insertion order, which
 * is the order in which `entries()` iterates.
 */
module Registry {
  import opened Wrappers

  /** A socket, named by an opaque number: two channels are the same exactly when their numbers are. */
  type ChannelId = nat

  /** JavaScript truthiness of an optional string: absent and "" are falsy. */
  predicate Truthy(s: Option<string>)
  {
    s.Some? && s.value != ""
  }

  predicate Distinct(s: seq<string>)
  {
    forall i, j :: 0 <= i < j < |s| ==> s[i] != s[j]
  }

  /** `keys` lists each key of `entries` exactly once: the iteration order of the Map. */
  ghost predicate OrderedKeys(entries: map<string, ChannelId>, keys: seq<string>)
  {
    Distinct(keys) && forall k :: k in entries <==> k in keys
  }

  /** Every entry of `before` is still in `after`, bound to the same channel. */
  ghost predicate Extends(before: map<string, ChannelId>, after: map<string, ChannelId>)
  {
    forall k :: k in before ==> k in after && after[k] == before[k]
  }

  /**
   * `getSocket(key)`: a falsy key finds nothing before the map is consulted;
   * otherwise the channel registered under the key, if any.
   */
  function GetSocket(entries: map<string, ChannelId>, key: Option<string>): (r: Option<ChannelId>)
    ensures r.Some? <==> Truthy(key) && key.value in entries
    ensures r.Some? ==> r.value == entries[key.value]
  {
    if Truthy(key) && key.value in entries then Some(entries[key.value]) else None
  }

  /**
   * `if (!socketMap.has(key)) socketMap.set(key, socket)`: the first channel
   * registered under a key keeps it, and no other entry changes.
   */
  function SetIfAbsent(entries: map<string, ChannelId>, key: string, ch: ChannelId): (r: map<string, ChannelId>)
    ensures Extends(entries, r)
    ensures r.Keys == entries.Keys + {key}
    ensures r[key] == if key in entries then entries[key] else ch
  {
    if key in entries then entries else entries[key := ch]
  }

  /** The key order after `SetIfAbsent`: a Map appends a key when it is first set. */
  function KeysAfterSet(entries: map<string, ChannelId>, keys: seq<string>, key: string): seq<string>
  {
    if key in entries then keys else keys + [key]
  }

  /** Registering keeps the key sequence in step with the entries. */
  lemma SetIfAbsentKeepsOrder(entries: map<string, ChannelId>, keys: seq<string>, key: string, ch: ChannelId)
    requires OrderedKeys(entries, keys)
    ensures OrderedKeys(SetIfAbsent(entries, key, ch), KeysAfterSet(entries, keys, key))
  {
  }

  /** A registered key is found again by `GetSocket` unless it is falsy. */
  lemma LookupAfterSet(entries: map<string, ChannelId>, key: string, ch: ChannelId, other: Option<string>)
    requires key != ""
    ensures GetSocket(SetIfAbsent(entries, key, ch), Some(key))
            == Some(if key in entries then entries[key] else ch)
    ensures other.Some? && other.value != key
            ==> GetSocket(SetIfAbsent(entries, key, ch), other) == GetSocket(entries, other)
  {
  }

  /** The number of entries equals the length of the key sequence. */
  lemma {:induction false} OrderedKeysSize(entries: map<string, ChannelId>, keys: seq<string>)
    requires OrderedKeys(entries, keys)
    ensures |entries| == |keys|
  {
    if keys != [] {
      var last := keys[|keys| - 1];
      var init := keys[..|keys| - 1];
      var rest := entries - {last};
      assert forall k :: k in init ==> k in keys && k != last by {
        forall k | k in init ensures k in keys && k != last {
          var i :| 0 <= i < |init| && init[i] == k;
          assert keys[i] == k;
        }
      }
      assert forall k :: k in keys && k != last ==> k in init by {
        forall k | k in keys && k != last ensures k in init {
          var i :| 0 <= i < |keys| && keys[i] == k;
          assert i != |keys| - 1;
          assert init[i] == k;
        }
      }
      assert OrderedKeys(rest, init);
      OrderedKeysSize(rest, init);
      assert last in entries;
      assert entries.Keys == rest.Keys + {last};
    } else {
      assert entries.Keys == {};
    }
  }
}
