/** The event bus: watchers with bounded channels, an event fan-out that waits for slow consumers,
    and an asynchronous Stop. Its invariant is what every interleaving of these keeps. */
module PubSub {
  import opened Resources

  // Fields left empty select everything.
  datatype Selector = Selector(kind: string, namespace: string, name: string)

  // One watcher and its channel. The last three fields record what the rest is measured by: the
  // events handed to the consumer, and the stretch of the publication log it is entitled to.
  datatype Watcher = Watcher(
    filter: Selector,
    attached: bool,              // w.ch is not nil
    buffer: seq<Event>,
    closed: bool,
    timedOut: bool,
    received: seq<Event>,
    since: nat,
    until: Option<nat>)

  const CAPACITY: nat := 10

  predicate IsSubscribed(s: Selector, evt: Event) {
    if evt.kind == Error then true
    else if s.kind != "" && s.kind != evt.obj.kind then false
    else if s.name != "" && s.name != evt.obj.name then false
    else if s.namespace != "" && s.namespace != evt.obj.namespace then false
    else true
  }

  // The events of a log that a selector lets through, in order.
  function Matching(log: seq<Event>, s: Selector): seq<Event> {
    if log == [] then [] else
      var last := log[|log| - 1];
      Matching(log[..|log| - 1], s) + if IsSubscribed(s, last) then [last] else []
  }

  lemma {:induction false} EmptySelectorTakesAll(log: seq<Event>)
    ensures Matching(log, Selector("", "", "")) == log
  {
    if log != [] {
      EmptySelectorTakesAll(log[..|log| - 1]);
    }
  }

  // A selector lets an event through exactly if each field it sets is the object's, or it is an error.
  lemma SelectorExact(s: Selector, evt: Event)
    ensures IsSubscribed(s, evt) <==>
      || evt.kind == Error
      || (s.kind in {"", evt.obj.kind} && s.namespace in {"", evt.obj.namespace} && s.name in {"", evt.obj.name})
  {
  }

  // Every event that matches is among the matching ones as often as it was published, and no other is.
  lemma {:induction false} MatchingCounts(log: seq<Event>, s: Selector, evt: Event)
    ensures multiset(Matching(log, s))[evt] == if IsSubscribed(s, evt) then multiset(log)[evt] else 0
    decreases |log|
  {
    hide IsSubscribed;
    if log != [] {
      var most, last := log[..|log| - 1], log[|log| - 1];
      assert log == most + [last];
      MatchingCounts(most, s, evt);
    }
  }

  lemma MatchingOne(log: seq<Event>, evt: Event, s: Selector)
    ensures Matching(log + [evt], s) == Matching(log, s) + if IsSubscribed(s, evt) then [evt] else []
  {
    assert (log + [evt])[..|log|] == log;
  }

  // What has been and still will be handed to the consumer.
  function Stream(w: Watcher): seq<Event> { w.received + w.buffer }

  // What a watcher is owed: the matching events from its subscription until its detachment.
  function Due(w: Watcher, log: seq<Event>): seq<Event>
    requires w.since <= End(w, log) <= |log|
  {
    Matching(log[w.since..End(w, log)], w.filter)
  }

  function End(w: Watcher, log: seq<Event>): nat {
    if w.until.Some? then w.until.value else |log|
  }

  // A watcher that never timed out has been handed, and holds in its channel, exactly that;
  // once its channel is closed, a first part of it.
  predicate Entitled(w: Watcher, log: seq<Event>) {
    && w.since <= End(w, log) <= |log| && |w.buffer| <= CAPACITY
    && (!w.timedOut ==> if w.closed then Stream(w) <= Due(w, log) else Stream(w) == Due(w, log))
  }

  // The consumer of w has taken some events out of the channel.
  predicate Delivered(w: Watcher, w': Watcher) {
    && Stream(w') == Stream(w) && w.received <= w'.received
    && w' == w.(buffer := w'.buffer, received := w'.received)
  }

  lemma DeliveredEntitled(w: Watcher, w': Watcher, log: seq<Event>)
    requires Entitled(w, log) && Delivered(w, w')
    ensures Entitled(w', log) && Kept(w, w')
  {
    assert |Stream(w)| == |w.received| + |w.buffer| && |Stream(w')| == |w'.received| + |w'.buffer|;
  }

  // What a delivery leaves alone.
  predicate Kept(w: Watcher, w': Watcher) {
    && w'.filter == w.filter && w'.attached == w.attached && w'.closed == w.closed && w'.until == w.until
    && w.received <= w'.received <= Stream(w)
  }

  lemma Taken(w: Watcher)
    requires w.buffer != []
    ensures Delivered(w, w.(buffer := w.buffer[1..], received := w.received + [w.buffer[0]]))
  {
    assert w.received + [w.buffer[0]] + w.buffer[1..] == w.received + w.buffer;
  }

  class PubSub {
    var counter: nat
    var watchers: set<nat>           // the ids registered to get events
    var all: map<nat, Watcher>       // every watcher ever made, by id
    var published: seq<Event>        // the publication log, kept for the specification
    ghost var detached: set<nat>     // watchers whose Stop is between its lock and its close

    ghost predicate Valid()
      reads this
    {
      && watchers <= all.Keys && detached <= all.Keys && watchers !! detached
      && (forall id :: id in all ==> id <= counter)
      && (forall id :: id in all ==> (id in watchers <==> all[id].attached))
      && (forall id :: id in all ==> (id in watchers || id in detached <==> !all[id].closed))
      && (forall id :: id in all ==> (id in watchers <==> all[id].until.None?))
      && (forall id :: id in all ==> Entitled(all[id], published))
    }

    constructor ()
      ensures Valid() && watchers == {} && all == map[] && published == [] && detached == {}
    {
      counter := 0;
      watchers := {};
      all := map[];
      published := [];
      detached := {};
    }

    method Subscribe(filter: Selector) returns (id: nat)
      requires Valid()
      modifies this
      ensures Valid()
      ensures id !in old(all) && watchers == old(watchers) + {id}
      ensures all == old(all)[id := Watcher(filter, true, [], false, false, [], |published|, None)]
      ensures published == old(published) && detached == old(detached)
    {
      counter := counter + 1;
      id := counter;
      all := all[id := Watcher(filter, true, [], false, false, [], |published|, None)];
      watchers := watchers + {id};
    }

    // The consumer takes the next event from its channel; none is left or none has come yet.
    method Receive(id: nat) returns (evt: Option<Event>)
      requires Valid() && id in all
      modifies this`all
      ensures Valid() && all.Keys == old(all).Keys && Moved(old(all), all)
      ensures forall i :: i in all && i != id ==> all[i] == old(all)[i]
      ensures var w := old(all)[id];
        if w.buffer == [] then evt == None && all[id] == w
        else evt == Some(w.buffer[0]) && all[id] == w.(buffer := w.buffer[1..], received := w.received + [w.buffer[0]])
    {
      hide Entitled, Delivered, Moved;
      var w := all[id];
      MovedOne(all, id, w);
      if w.buffer == [] {
        evt := None;
      } else {
        evt := Some(w.buffer[0]);
        var w' := w.(buffer := w.buffer[1..], received := w.received + [w.buffer[0]]);
        Taken(w);
        DeliveredEntitled(w, w', published);
        MovedOne(all, id, w');
        all := all[id := w'];
      }
    }

    // Consumers run while somebody else waits.
    method Consumers()
      modifies this`all
      ensures Moved(old(all), all)
    {
      var turns: seq<nat> := *;
      for i := 0 to |turns|
        invariant Moved(old(all), all)
      {
        var id := turns[i];
        if id in all && all[id].buffer != [] {
          var w := all[id];
          Taken(w);
          all := all[id := w.(buffer := w.buffer[1..], received := w.received + [w.buffer[0]])];
        }
      }
    }

    // sendEvent: a send on the watcher's channel, or a timeout while the channel stays full.
    method SendEvent(evt: Event, id: nat)
      requires id in all && !all[id].closed && |all[id].buffer| <= CAPACITY
      modifies this`all
      ensures all.Keys == old(all).Keys && Offered(old(all)[id], all[id], evt)
      ensures forall i :: i in all && i != id ==> Delivered(old(all)[i], all[i])
    {
      var full := |all[id].buffer| == CAPACITY;
      Consumers();
      var expired: bool := *;
      var w := all[id];
      assert Delivered(old(all)[id], w);
      assert |Stream(w)| == |w.received| + |w.buffer| && |w.buffer| <= CAPACITY;
      if |w.buffer| < CAPACITY && !(full && expired) {
        assert w.received + (w.buffer + [evt]) == w.received + w.buffer + [evt];
        all := all[id := w.(buffer := w.buffer + [evt])];
      } else {
        all := all[id := w.(timedOut := true)];
      }
    }

    // Every registered watcher whose selector matches is offered the event; nobody else is.
    method Publish(evt: Event)
      requires Valid()
      modifies this`all, this`published
      ensures Valid() && published == old(published) + [evt]
      ensures Spread(old(all), all, watchers, evt)
    {
      hide Entitled, Offered, Delivered;
      var todo := watchers;
      ghost var done: set<nat> := {};
      SpreadNone(all, evt);
      while todo != {}
        invariant todo !! done && todo + done == watchers && published == old(published)
        invariant Spread(old(all), all, done, evt)
        decreases todo
      {
        var id :| id in todo;
        todo := todo - {id};
        ghost var before := all;
        ReadyToSend(old(all)[id], all[id], published);
        if IsSubscribed(all[id].filter, evt) {
          SendEvent(evt, id);
        }
        SpreadOne(old(all), before, all, done, id, evt);
        done := done + {id};
      }
      assert done == watchers;
      SpreadValid(old(all), all, watchers, published, evt);
      published := published + [evt];
    }

    // The part of Stop under the lock: the watcher is removed and its channel is taken, by one caller.
    method Detach(id: nat) returns (taken: bool)
      requires Valid() && id in all
      modifies this
      ensures Valid() && taken == old(all)[id].attached && published == old(published)
      ensures watchers == old(watchers) - {id} && detached == old(detached) + if taken then {id} else {}
      ensures var w := old(all)[id];
        all == if taken then old(all)[id := w.(attached := false, until := Some(|published|))] else old(all)
    {
      var w := all[id];
      taken := w.attached;
      watchers := watchers - {id};
      if taken {
        all := all[id := w.(attached := false, until := Some(|published|))];
        detached := detached + {id};
      }
    }

    // The part after it: closing the channel and draining it. Closing a closed channel is a panic.
    method Close(id: nat)
      requires Valid() && id in detached
      modifies this`all, this`detached
      ensures Valid() && all.Keys == old(all).Keys && detached == old(detached) - {id}
      ensures !old(all)[id].closed && all[id].closed && all[id].buffer == []
      ensures old(all)[id].received <= all[id].received <= Stream(old(all)[id])
      ensures forall i :: i in all && i != id ==> Delivered(old(all)[i], all[i])
    {
      hide Entitled, Delivered;
      Consumers();
      forall i | i in all ensures Entitled(all[i], published) && Kept(old(all)[i], all[i]) {
        DeliveredEntitled(old(all)[i], all[i], published);
      }
      var w := all[id];
      ClosedEntitled(w, published);
      all := all[id := w.(closed := true, buffer := [])];
      detached := detached - {id};
    }

    // However often and by whomever it is called, a channel is closed by the one call that took it.
    method Stop(id: nat)
      requires Valid() && id in all
      modifies this
      ensures Valid() && all.Keys == old(all).Keys && published == old(published)
      ensures id !in watchers && !all[id].attached
      ensures !old(all)[id].attached ==> all == old(all) && detached == old(detached)
      ensures old(all)[id].attached ==> all[id].closed && detached == old(detached)
    {
      var taken := Detach(id);
      if taken {
        Close(id);
      }
    }
  }

  // evt has been sent to w, or w has timed out, which takes a full channel.
  predicate Offered(w: Watcher, w': Watcher, evt: Event) {
    && w' == w.(buffer := w'.buffer, received := w'.received, timedOut := w'.timedOut)
    && w.received <= w'.received && |w'.buffer| <= CAPACITY
    && (w.timedOut ==> w'.timedOut)
    && (w'.timedOut || Stream(w') == Stream(w) + [evt])
    && (|w.buffer| < CAPACITY ==> Stream(w') == Stream(w) + [evt] && w'.timedOut == w.timedOut)
  }

  // The subscribed among ids have been offered evt, and consumers may have run.
  ghost predicate Spread(before: map<nat, Watcher>, after: map<nat, Watcher>, ids: set<nat>, evt: Event) {
    && before.Keys == after.Keys
    && forall id :: id in before ==>
         if id in ids && IsSubscribed(before[id].filter, evt) then Offered(before[id], after[id], evt)
         else Delivered(before[id], after[id])
  }

  lemma SpreadNone(m: map<nat, Watcher>, evt: Event)
    ensures Spread(m, m, {}, evt)
  {
  }

  lemma ReadyToSend(w: Watcher, w': Watcher, log: seq<Event>)
    requires Entitled(w, log) && Delivered(w, w')
    ensures |w'.buffer| <= CAPACITY && w'.filter == w.filter && w'.closed == w.closed
  {
    DeliveredEntitled(w, w', log);
  }

  lemma SpreadValid(m: map<nat, Watcher>, m': map<nat, Watcher>, ids: set<nat>, log: seq<Event>, evt: Event)
    requires Spread(m, m', ids, evt)
    requires forall id :: id in m ==>
      Entitled(m[id], log) && (id in ids <==> m[id].until.None?) && (id in ids ==> !m[id].closed)
    ensures forall id :: id in m' ==> Entitled(m'[id], log + [evt])
    ensures forall id :: id in m' ==>
      m'[id].attached == m[id].attached && m'[id].closed == m[id].closed && m'[id].until == m[id].until
  {
    forall id | id in m' ensures Entitled(m'[id], log + [evt]) {
      PublishedEntitled(m[id], m'[id], log, evt);
    }
  }

  lemma SpreadOne(
    m0: map<nat, Watcher>, m1: map<nat, Watcher>, m2: map<nat, Watcher>, done: set<nat>, id: nat, evt: Event)
    requires Spread(m0, m1, done, evt) && m1.Keys == m2.Keys && id in m0 && id !in done
    requires if IsSubscribed(m0[id].filter, evt) then Offered(m1[id], m2[id], evt) else m2[id] == m1[id]
    requires forall i :: i in m1 && i != id ==> Delivered(m1[i], m2[i]) || m2[i] == m1[i]
    ensures Spread(m0, m2, done + {id}, evt)
  {
    forall i | i in m0
      ensures if i in done + {id} && IsSubscribed(m0[i].filter, evt) then Offered(m0[i], m2[i], evt)
              else Delivered(m0[i], m2[i])
    {
      if i == id && IsSubscribed(m0[i].filter, evt) {
        OfferedLater(m0[i], m1[i], m2[i], evt);
      } else if m2[i] != m1[i] {
        DeliveredLater(m0[i], m1[i], m2[i], evt);
      }
    }
  }

  lemma OfferedLater(w: Watcher, w1: Watcher, w2: Watcher, evt: Event)
    requires Delivered(w, w1) && Offered(w1, w2, evt)
    ensures Offered(w, w2, evt)
  {
    assert |Stream(w)| == |w.received| + |w.buffer| && |Stream(w1)| == |w1.received| + |w1.buffer|;
  }

  lemma DeliveredLater(w: Watcher, w1: Watcher, w2: Watcher, evt: Event)
    requires Delivered(w1, w2)
    ensures Delivered(w, w1) ==> Delivered(w, w2)
    ensures Offered(w, w1, evt) ==> Offered(w, w2, evt)
  {
    assert |Stream(w1)| == |w1.received| + |w1.buffer| && |Stream(w2)| == |w2.received| + |w2.buffer|;
  }

  lemma ClosedEntitled(w: Watcher, log: seq<Event>)
    requires Entitled(w, log)
    ensures Entitled(w.(closed := true, buffer := []), log)
  {
    assert Stream(w.(closed := true, buffer := [])) == w.received <= Stream(w);
  }

  // After a publication every watcher has what it is owed by the longer log.
  lemma PublishedEntitled(w: Watcher, w': Watcher, log: seq<Event>, evt: Event)
    requires Entitled(w, log)
    requires if w.until.None? && IsSubscribed(w.filter, evt) then Offered(w, w', evt) else Delivered(w, w')
    requires w.until.None? ==> !w.closed
    ensures Entitled(w', log + [evt])
  {
    var log' := log + [evt];
    if w.until.None? {
      assert log[w.since..|log|] == log[w.since..];
      assert log'[w.since..|log'|] == log[w.since..] + [evt];
      MatchingOne(log[w.since..], evt, w.filter);
      assert Matching(log[w.since..], w.filter) + [] == Matching(log[w.since..], w.filter);
    } else {
      assert log'[w.since..End(w, log)] == log[w.since..End(w, log)];
    }
    if Delivered(w, w') { DeliveredEntitled(w, w', log); }
  }

  // Nothing but deliveries happened.
  ghost predicate Moved(before: map<nat, Watcher>, after: map<nat, Watcher>) {
    before.Keys == after.Keys && forall id :: id in before ==> Delivered(before[id], after[id])
  }

  lemma MovedOne(m: map<nat, Watcher>, id: nat, w: Watcher)
    requires id in m && (w == m[id] || Delivered(m[id], w))
    ensures Moved(m, m[id := w]) && Moved(m, m)
  {
  }
}
