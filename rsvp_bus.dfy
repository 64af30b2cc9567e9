/**
 * The in-process publish/subscribe registry for live RSVP updates
 * (src/server/rsvp-bus.ts): a map from event id to the set of subscribed
 * callbacks. A JavaScript `Set` iterates in insertion order and holds each
 * callback once, so each channel is a sequence without duplicates.
 */
module RsvpBus {

  ghost predicate Distinct<S>(s: seq<S>) {
    forall i, j :: 0 <= i < j < |s| ==> s[i] != s[j]
  }

  /** `set.add(x)`: a new member goes to the end; a present one stays where it is. */
  function Add<S(==)>(s: seq<S>, x: S): seq<S> {
    if x in s then s else s + [x]
  }

  /** `set.delete(x)`: the other members, in order. */
  function Remove<S(==)>(s: seq<S>, x: S): (r: seq<S>)
    decreases |s|
  {
    if s == [] then []
    else (if s[0] == x then [] else [s[0]]) + Remove(s[1..], x)
  }

  /** Adding keeps a set a set, makes `x` a member, and adds nothing else. */
  lemma AddFacts<S>(s: seq<S>, x: S)
    requires Distinct(s)
    ensures Distinct(Add(s, x))
    ensures forall y :: y in Add(s, x) <==> y in s || y == x
    ensures Add(Add(s, x), x) == Add(s, x)
  {}

  /** Deleting removes exactly `x`, and keeps a set a set. */
  lemma {:induction false} RemoveFacts<S>(s: seq<S>, x: S)
    ensures forall y :: y in Remove(s, x) <==> y in s && y != x
    ensures Distinct(s) ==> Distinct(Remove(s, x))
    ensures x !in s ==> Remove(s, x) == s
    decreases |s|
  {
    if s != [] {
      RemoveFacts(s[1..], x);
      var rest := Remove(s[1..], x);
      var r := Remove(s, x);
      if s[0] == x {
        assert r == rest;
      } else {
        assert r == [s[0]] + rest;
        if Distinct(s) {
          assert Distinct(s[1..]) by {
            forall i, j | 0 <= i < j < |s[1..]| ensures s[1..][i] != s[1..][j] {
              assert s[1..][i] == s[i + 1] && s[1..][j] == s[j + 1];
            }
          }
          assert s[0] !in s[1..] by {
            forall i | 0 <= i < |s[1..]| ensures s[1..][i] != s[0] {
              assert s[1..][i] == s[i + 1];
            }
          }
          forall i, j | 0 <= i < j < |r| ensures r[i] != r[j] {
            if i == 0 {
              assert r[j] == rest[j - 1];
              assert r[j] in rest;
            } else {
              assert r[i] == rest[i - 1] && r[j] == rest[j - 1];
            }
          }
        }
      }
      if x !in s {
        assert s == [s[0]] + s[1..];
      }
    }
  }

  /** Subscribing and unsubscribing the same callback undoes the subscription. */
  lemma RemoveAfterAdd<S>(s: seq<S>, x: S)
    requires Distinct(s) && x !in s
    ensures Remove(Add(s, x), x) == s
  {
    RemoveAppend(s, x);
    RemoveFacts(s, x);
  }

  lemma {:induction false} RemoveAppend<S>(s: seq<S>, x: S)
    ensures Remove(s + [x], x) == Remove(s, x)
    decreases |s|
  {
    if s == [] {
      assert [x][1..] == [];
    } else {
      assert (s + [x])[1..] == s[1..] + [x];
      RemoveAppend(s[1..], x);
    }
  }

  /** The closure `subscribe` returns: it remembers the channel and the callback. */
  datatype Unsubscribe<S> = Unsubscribe(channel: string, cb: S)

  /** The registry, with callbacks of type `S`. */
  class Bus<S(==)> {
    var channels: map<string, seq<S>>

    ghost predicate Valid()
      reads this
    {
      forall e :: e in channels ==> Distinct(channels[e])
    }

    /** The callbacks subscribed to a channel, in subscription order. */
    function Subscribers(eventId: string): seq<S>
      reads this
    {
      if eventId in channels then channels[eventId] else []
    }

    /** `new Map()` */
    constructor ()
      ensures Valid() && channels == map[]
    {
      channels := map[];
    }

    /** `subscribe(eventId, cb)`: the channel's set, created if missing, gets
        `cb`, and the returned handle deletes it again. */
    method Subscribe(eventId: string, cb: S) returns (unsubscribe: Unsubscribe<S>)
      requires Valid()
      modifies this
      ensures Valid()
      ensures channels == old(channels)[eventId := Add(old(Subscribers(eventId)), cb)]
      ensures unsubscribe == Unsubscribe(eventId, cb)
    {
      var members := if eventId in channels then channels[eventId] else [];
      AddFacts(members, cb);
      members := Add(members, cb);
      channels := channels[eventId := members];
      unsubscribe := Unsubscribe(eventId, cb);
    }

    /** Calling the handle: `set.delete(cb)` on the channel it was made for;
        every other channel and callback stays. */
    method Cancel(h: Unsubscribe<S>)
      requires Valid()
      modifies this
      ensures Valid()
      ensures h.channel in old(channels) ==> channels == old(channels)[h.channel := Remove(old(channels)[h.channel], h.cb)]
      ensures h.channel !in old(channels) ==> channels == old(channels)
    {
      if h.channel in channels {
        RemoveFacts(channels[h.channel], h.cb);
        channels := channels[h.channel := Remove(channels[h.channel], h.cb)];
      }
    }

    /** `publish(eventId, data)`: every callback of the channel is called once
        with `data`, in subscription order; a channel without a set gets no
        calls. The registry is not changed. */
    method Publish<D>(eventId: string, data: D) returns (calls: seq<(S, D)>)
      requires Valid()
      ensures |calls| == |Subscribers(eventId)|
      ensures forall i :: 0 <= i < |calls| ==> calls[i] == (Subscribers(eventId)[i], data)
      ensures forall i, j :: 0 <= i < j < |calls| ==> calls[i].0 != calls[j].0
    {
      calls := [];
      if eventId !in channels {
        return;
      }
      var members := channels[eventId];
      for k := 0 to |members|
        invariant |calls| == k
        invariant forall i :: 0 <= i < k ==> calls[i] == (members[i], data)
      {
        calls := calls + [(members[k], data)];
      }
    }
  }

  /** A callback subscribed to a channel receives what is published there,
      once; after unsubscribing it receives nothing, and another channel's
      subscriber is never called. */
  method DeliveryScenario()
  {
    var bus := new Bus<int>();
    var off := bus.Subscribe("e1", 1);
    var again := bus.Subscribe("e1", 1);
    var _ := bus.Subscribe("e2", 2);
    var calls := bus.Publish("e1", "yes");
    assert calls == [(1, "yes")];
    bus.Cancel(off);
    calls := bus.Publish("e1", "no");
    assert calls == [];
    calls := bus.Publish("e2", "no");
    assert calls == [(2, "no")];
    calls := bus.Publish("e3", "no");
    assert calls == [];
  }
}
