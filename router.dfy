/**
 * The message router: what the `message` listener of one connection sends
 * for one decoded inbound frame (src/index.ts:75-148).  Every send goes
 * through `sendMessage`, which writes to the listening connection's own
 * socket, so the router's result is a list of messages for the sender.
 */
module Router {
  import opened Wrappers
  import opened Registry

  /** An opaque session description or ICE candidate: only ever copied. */
  datatype Blob = Blob(json: string)

  /** The outbound `MessageEvent`s of src/index.ts:15-23, one variant per `type`. */
  datatype Message =
    | Error(message: string)
    | Register(key: string)
    | Offer(key: string, desc: Option<Blob>)
    | Answer(key: string, desc: Option<Blob>)
    | AnswerOk(key: string)
    | IceCandidate(key: string, candidate: Option<Blob>)

  /**
   * A decoded inbound frame: `type` and the three fields destructured from
   * `payload`.  A `type` that is not a string is some string other than the
   * four the switch knows; a `key` that is not a string never matches a Map
   * key, and is decoded as `None`.
   */
  datatype Inbound = Inbound(kind: string, key: Option<string>, desc: Option<Blob>, candidate: Option<Blob>)

  /** The text of the error sent when the handshake key is missing. */
  const NO_KEY_TEXT: string := "sec-websocket-key not found"

  /** `messages`, each addressed to channel `ch`. */
  function To(ch: ChannelId, messages: seq<Message>): (r: seq<(ChannelId, Message)>)
    ensures |r| == |messages|
    ensures forall i :: 0 <= i < |r| ==> r[i] == (ch, messages[i])
  {
    seq(|messages|, i requires 0 <= i < |messages| => (ch, messages[i]))
  }

  lemma ToAppend(ch: ChannelId, a: seq<Message>, b: seq<Message>)
    ensures To(ch, a + b) == To(ch, a) + To(ch, b)
  {
  }

  /**
   * The `ice-candidate` loop over `socketMap.entries()`: one message per
   * key, in iteration order, skipping the sender's own key.
   */
  function Fanout(keys: seq<string>, ownKey: string, candidate: Option<Blob>): seq<Message>
    decreases |keys|
  {
    if keys == [] then []
    else
      Fanout(keys[..|keys| - 1], ownKey, candidate)
      + (if keys[|keys| - 1] == ownKey then [] else [IceCandidate(ownKey, candidate)])
  }

  /** The messages one decoded frame makes the listener send; `None` is a parse or destructuring failure. */
  function Replies(entries: map<string, ChannelId>, keys: seq<string>, ownKey: string, decoded: Option<Inbound>): seq<Message>
  {
    match decoded
    case None => []
    case Some(m) =>
      if m.kind == "offer" then
        if GetSocket(entries, m.key).None? then [] else [Offer(ownKey, m.desc)]
      else if m.kind == "answer" then
        if GetSocket(entries, m.key).None? then [] else [Answer(m.key.value, m.desc)]
      else if m.kind == "answer-ok" then
        if GetSocket(entries, m.key).None? then [] else [AnswerOk(ownKey)]
      else if m.kind == "ice-candidate" then
        Fanout(keys, ownKey, m.candidate)
      else []
  }

  /**
   * The fan-out has one message per key other than the sender's own, and
   * every message carries the sender's key and the candidate unchanged.
   */
  lemma {:induction false} FanoutShape(keys: seq<string>, ownKey: string, candidate: Option<Blob>)
    requires Distinct(keys)
    ensures |Fanout(keys, ownKey, candidate)| == |keys| - (if ownKey in keys then 1 else 0)
    ensures forall m :: m in Fanout(keys, ownKey, candidate) ==> m == IceCandidate(ownKey, candidate)
  {
    if keys != [] {
      var init := keys[..|keys| - 1];
      assert Distinct(init) by {
        forall i, j | 0 <= i < j < |init| ensures init[i] != init[j] {
          assert init[i] == keys[i] && init[j] == keys[j];
        }
      }
      FanoutShape(init, ownKey, candidate);
      assert keys == init + [keys[|keys| - 1]];
      if keys[|keys| - 1] == ownKey {
        assert ownKey !in init by {
          forall i | 0 <= i < |init| ensures init[i] != ownKey {
            assert init[i] == keys[i];
          }
        }
      }
    }
  }

  /**
   * `ice-candidate`: the sender receives one copy per registry entry whose
   * key is not its own, |registry| - 1 copies when its own key is
   * registered, each `{key: ownKey, candidate}`.
   */
  lemma IceCandidateReplies(entries: map<string, ChannelId>, keys: seq<string>, ownKey: string, m: Inbound)
    requires OrderedKeys(entries, keys)
    requires m.kind == "ice-candidate"
    ensures |Replies(entries, keys, ownKey, Some(m))| == |entries| - (if ownKey in entries then 1 else 0)
    ensures forall r :: r in Replies(entries, keys, ownKey, Some(m)) ==> r == IceCandidate(ownKey, m.candidate)
  {
    OrderedKeysSize(entries, keys);
    FanoutShape(keys, ownKey, m.candidate);
  }

  /**
   * `offer`, `answer` and `answer-ok`: nothing when the target key finds no
   * registered channel, otherwise exactly one message.  Its key is the
   * sender's own for `offer` and `answer-ok` and the target key for
   * `answer`; `desc` is copied unchanged.
   */
  lemma PointToPointReplies(entries: map<string, ChannelId>, keys: seq<string>, ownKey: string, m: Inbound)
    requires m.kind in {"offer", "answer", "answer-ok"}
    ensures var out := Replies(entries, keys, ownKey, Some(m));
            && |out| == (if Truthy(m.key) && m.key.value in entries then 1 else 0)
            && (|out| == 1 && m.kind == "offer" ==> out[0] == Offer(ownKey, m.desc))
            && (|out| == 1 && m.kind == "answer" ==> out[0] == Answer(m.key.value, m.desc))
            && (|out| == 1 && m.kind == "answer-ok" ==> out[0] == AnswerOk(ownKey))
  {
  }

  /**
   * Every message the router emits names, in its key, either the sender (offer,
   * answer-ok, ice-candidate) or the registered target (answer).
   */
  lemma RepliesKeys(entries: map<string, ChannelId>, keys: seq<string>, ownKey: string, decoded: Option<Inbound>)
    requires Distinct(keys)
    ensures forall r :: r in Replies(entries, keys, ownKey, decoded) ==>
              || ((r.Offer? || r.AnswerOk? || r.IceCandidate?) && r.key == ownKey)
              || (r.Answer? && decoded.Some? && Truthy(decoded.value.key)
                  && r.key == decoded.value.key.value && r.key in entries)
  {
    if decoded.Some? && decoded.value.kind == "ice-candidate" {
      FanoutShape(keys, ownKey, decoded.value.candidate);
    }
  }

  /** A frame that does not decode, or whose type the switch does not know, sends nothing. */
  lemma IgnoredReplies(entries: map<string, ChannelId>, keys: seq<string>, ownKey: string, decoded: Option<Inbound>)
    requires decoded.Some? ==> decoded.value.kind !in {"offer", "answer", "answer-ok", "ice-candidate"}
    ensures Replies(entries, keys, ownKey, decoded) == []
  {
  }

  /**
   * Three peers A, B, C on channels 0, 1, 2; A sends an `ice-candidate`.
   * A itself receives two copies carrying its key, B and C receive none.
   */
  lemma ThreePeerIceCandidate(a: string, b: string, c: string, cand: Option<Blob>)
    requires a != b && b != c && a != c
    ensures To(0, Replies(map[a := 0, b := 1, c := 2], [a, b, c], a, Some(Inbound("ice-candidate", None, None, cand))))
            == [(0, IceCandidate(a, cand)), (0, IceCandidate(a, cand))]
  {
    var keys, m := [a, b, c], IceCandidate(a, cand);
    assert keys[..2] == [a, b] && [a, b][..1] == [a] && [a][..0] == [];
    assert Fanout([a], a, cand) == [];
    assert Fanout([a, b], a, cand) == [m];
    assert Fanout(keys, a, cand) == [m, m];
  }
}
