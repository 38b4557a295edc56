/**
 * The session handler (`handleSession`, src/index.ts:49-152) over the
 * shared registry.  One `Relay` object holds the state the source keeps in
 * module scope and in its closures: the registry, the key each connection's
 * message listener captured, and every frame sent so far.
 */
module Session {
  import opened Wrappers
  import opened Ids
  import opened Registry
  import opened Router

  class Relay {
    /** `socketMap`, as entries and keys in insertion order. */
    var entries: map<string, ChannelId>
    var keys: seq<string>
    /** The channels with a message listener installed, each with the key its closure captured. */
    var listeners: map<ChannelId, string>
    /** Every `socket.send`, in order: the channel written to and the message. */
    var outbox: seq<(ChannelId, Message)>

    ghost predicate Valid()
      reads this
    {
      && OrderedKeys(entries, keys)
      && forall ch :: ch in listeners ==> listeners[ch] in entries
    }

    /** A fresh process: the registry is empty and nothing has been sent. */
    constructor ()
      ensures Valid()
      ensures entries == map[] && keys == [] && listeners == map[] && outbox == []
    {
      entries, keys, listeners, outbox := map[], [], map[], [];
    }

    /** `sendMessage(data)`: one frame on channel `ch`. */
    method Send(ch: ChannelId, msg: Message)
      modifies this`outbox
      ensures outbox == old(outbox) + [(ch, msg)]
    {
      outbox := outbox + [(ch, msg)];
    }

    /**
     * One upgraded connection on the fresh channel `ch`, with the handshake
     * header `secKey` and the clock text and random tokens `createId`
     * consumes.  A falsy header costs one `error` frame and nothing else;
     * otherwise the derived key is registered if it is new, the channel is
     * told its key in one `register` frame, and its message listener is
     * installed with that key.  Existing entries never change.
     */
    method HandleSession(ch: ChannelId, secKey: Option<string>, r1: Token, ts: string, r2: Token)
      returns (key: Option<string>)
      requires Valid()
      requires ch !in listeners
      modifies this
      ensures Valid()
      ensures Extends(old(entries), entries)
      ensures !Truthy(secKey) ==>
                && key == None
                && entries == old(entries) && keys == old(keys) && listeners == old(listeners)
                && outbox == old(outbox) + [(ch, Error(NO_KEY_TEXT))]
      ensures Truthy(secKey) ==>
                && key == Some(CreateId(r1, ts, r2, secKey.value))
                && entries == SetIfAbsent(old(entries), key.value, ch)
                && keys == KeysAfterSet(old(entries), old(keys), key.value)
                && listeners == old(listeners)[ch := key.value]
                && outbox == old(outbox) + [(ch, Register(key.value))]
    {
      if !Truthy(secKey) {
        Send(ch, Error(NO_KEY_TEXT));
        return None;
      }
      var id := CreateId(r1, ts, r2, secKey.value);
      SetIfAbsentKeepsOrder(entries, keys, id, ch);
      if id !in entries {
        entries := entries[id := ch];
        keys := keys + [id];
      }
      Send(ch, Register(id));
      listeners := listeners[ch := id];
      key := Some(id);
    }

    /**
     * One inbound frame on channel `ch`, already decoded (`None`: the parse
     * or the destructuring of `payload` threw and was caught).  A channel
     * without a listener ignores it; otherwise the listener sends, on `ch`
     * itself, exactly the frames `Replies` lists.  The registry is not
     * touched.
     */
    method OnMessage(ch: ChannelId, decoded: Option<Inbound>)
      requires Valid()
      modifies this`outbox
      ensures Valid()
      ensures entries == old(entries) && keys == old(keys) && listeners == old(listeners)
      ensures ch !in listeners ==> outbox == old(outbox)
      ensures ch in listeners ==>
                outbox == old(outbox) + To(ch, Replies(entries, keys, listeners[ch], decoded))
      ensures forall i :: |old(outbox)| <= i < |outbox| ==> outbox[i].0 == ch
      ensures ch in listeners && decoded.Some? && decoded.value.kind == "ice-candidate" ==>
                && |outbox| == |old(outbox)| + |entries| - 1
                && forall i :: |old(outbox)| <= i < |outbox| ==>
                     outbox[i] == (ch, IceCandidate(listeners[ch], decoded.value.candidate))
    {
      if ch !in listeners || decoded.None? {
        return;
      }
      var key, m := listeners[ch], decoded.value;
      if m.kind == "offer" {
        var target := GetSocket(entries, m.key);
        if target.None? {
          return;
        }
        Send(ch, Offer(key, m.desc));
      } else if m.kind == "answer" {
        var target := GetSocket(entries, m.key);
        if target.None? {
          return;
        }
        Send(ch, Answer(m.key.value, m.desc));
      } else if m.kind == "answer-ok" {
        var target := GetSocket(entries, m.key);
        if target.None? {
          return;
        }
        Send(ch, AnswerOk(key));
      } else if m.kind == "ice-candidate" {
        SendIceCandidates(ch, key, m.candidate);
        // The listener's own key is registered, so exactly one entry is skipped.
        IceCandidateReplies(entries, keys, key, m);
        ghost var replies := Replies(entries, keys, key, decoded);
        assert forall i :: |old(outbox)| <= i < |outbox| ==> outbox[i].1 in replies by {
          forall i | |old(outbox)| <= i < |outbox| ensures outbox[i].1 in replies {
            assert outbox[i] == (ch, replies[i - |old(outbox)|]);
          }
        }
      }
    }

    /**
     * The `forEach` over `socketMap.entries()`: for every key but the
     * sender's own, one `ice-candidate` frame, written to the sender's channel.
     */
    method SendIceCandidates(ch: ChannelId, ownKey: string, candidate: Option<Blob>)
      modifies this`outbox
      ensures outbox == old(outbox) + To(ch, Fanout(keys, ownKey, candidate))
    {
      var i := 0;
      while i < |keys|
        invariant 0 <= i <= |keys|
        invariant outbox == old(outbox) + To(ch, Fanout(keys[..i], ownKey, candidate))
      {
        assert keys[..i + 1][..i] == keys[..i];
        ToAppend(ch, Fanout(keys[..i], ownKey, candidate),
                 if keys[i] == ownKey then [] else [IceCandidate(ownKey, candidate)]);
        if keys[i] != ownKey {
          Send(ch, IceCandidate(ownKey, candidate));
        }
        i := i + 1;
      }
      assert keys[..i] == keys;
    }
  }

  /**
   * Registration round trip: right after a connection registers, looking up
   * its derived key finds its channel, or the channel that held the key first.
   */
  lemma RegisteredIdIsFound(entries: map<string, ChannelId>, r1: Token, ts: string, r2: Token, seed: string, ch: ChannelId)
    ensures var id := CreateId(r1, ts, r2, seed);
            GetSocket(SetIfAbsent(entries, id, ch), Some(id)) == Some(if id in entries then entries[id] else ch)
  {
    LookupAfterSet(entries, CreateId(r1, ts, r2, seed), ch, None);
  }

  /**
   * Two peers register with handshake keys "abc123" and "def456"; the second
   * sends an `answer` naming the first.  The answer comes back to the second
   * peer's own channel, carrying the first peer's key and the description.
   */
  method AnswerScenario(d: Blob)
  {
    var relay := new Relay();
    var k1 := relay.HandleSession(1, Some("abc123"), "AAAAAA", "1700000123456", "BBBBBB");
    assert relay.outbox == [(1, Register(k1.value))];
    var k2 := relay.HandleSession(2, Some("def456"), "CCCCCC", "1700000123457", "DDDDDD");
    assert k1.value[0] == 'A' && k2.value[0] == 'C';
    assert relay.entries == map[k1.value := 1, k2.value := 2];
    relay.OnMessage(2, Some(Inbound("answer", k1, Some(d), None)));
    assert relay.outbox == [(1, Register(k1.value)), (2, Register(k2.value)), (2, Answer(k1.value, Some(d)))];
    relay.OnMessage(3, Some(Inbound("answer", k1, Some(d), None)));
    relay.OnMessage(2, None);
    assert |relay.outbox| == 3;
  }
}
