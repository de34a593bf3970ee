/** The client's copy of a store: a list that is loaded once and then changed by the events of a
    watch, and when it agrees with the store. */
module Sync {
  import opened Resources
  import opened StoreSpec
  import PubSub
  import InMemoryStore

  // The first index of an object with that name, or the length of the list.
  function IndexOf(list: seq<Resource>, name: string): (i: nat)
    ensures i <= |list| && (i < |list| ==> list[i].name == name)
    ensures forall j :: 0 <= j < i ==> list[j].name != name
  {
    if list == [] || list[0].name == name then 0 else 1 + IndexOf(list[1..], name)
  }

  // The list without the objects of that name.
  function Without(list: seq<Resource>, name: string): seq<Resource> {
    if list == [] then []
    else Without(list[..|list| - 1], name) + if list[|list| - 1].name == name then [] else [list[|list| - 1]]
  }

  function Applied(list: seq<Resource>, evt: Event): seq<Resource> {
    match evt.kind
    case Added => list + [evt.obj]
    case Modified =>
      var i := IndexOf(list, evt.obj.name);
      if i < |list| then list[i := evt.obj] else list
    case Deleted => Without(list, evt.obj.name)
    case Bookmark => list
    case Error => list
  }

  function ApplyAll(list: seq<Resource>, events: seq<Event>): seq<Resource> {
    if events == [] then list else Applied(ApplyAll(list, events[..|events| - 1]), events[|events| - 1])
  }

  class Replica {
    var resources: seq<Resource>

    constructor (items: seq<Resource>)
      ensures resources == items
    {
      resources := items;
    }

    // The handler that the watch calls with each event.
    method Handle(evt: Event)
      modifies this
      ensures resources == Applied(old(resources), evt)
    {
      match evt.kind {
        case Added =>
          resources := resources + [evt.obj];
        case Modified =>
          var i := 0;
          while i < |resources| && resources[i].name != evt.obj.name
            invariant i <= |resources| && resources == old(resources)
            invariant forall j :: 0 <= j < i ==> resources[j].name != evt.obj.name
          {
            i := i + 1;
          }
          if i < |resources| {
            resources := resources[i := evt.obj];
          }
        case Deleted =>
          var res: seq<Resource> := [];
          for i := 0 to |resources|
            invariant resources == old(resources) && res == Without(resources[..i], evt.obj.name)
          {
            var r := resources[i];
            assert resources[..i + 1][..i] == resources[..i];
            if r.name != evt.obj.name {
              res := res + [r];
            }
          }
          assert resources[..|resources|] == resources;
          WithoutLength(resources, evt.obj.name);
          if |res| != |resources| {
            resources := res;
          }
        case Bookmark =>
        case Error =>
      }
    }

    // The consumption of a stretch of the event stream.
    method HandleAll(events: seq<Event>)
      modifies this
      ensures resources == ApplyAll(old(resources), events)
    {
      for i := 0 to |events|
        invariant resources == ApplyAll(old(resources), events[..i])
      {
        assert events[..i + 1][..i] == events[..i];
        Handle(events[i]);
      }
      assert events[..|events|] == events;
    }
  }

  // Removing nothing is removing nobody.
  lemma {:induction false} WithoutLength(list: seq<Resource>, name: string)
    ensures |Without(list, name)| <= |list|
    ensures |Without(list, name)| == |list| ==> Without(list, name) == list
    decreases |list|
  {
    if list != [] {
      var most, last := list[..|list| - 1], list[|list| - 1];
      assert list == most + [last];
      WithoutLength(most, name);
      WithoutLast(list, name);
      hide Without;
    }
  }

  lemma WithoutLast(list: seq<Resource>, name: string)
    requires list != []
    ensures Without(list, name) ==
      Without(list[..|list| - 1], name) + if list[|list| - 1].name == name then [] else [list[|list| - 1]]
  {
  }

  // Events that say nothing about an object of the list leave it as it is.
  lemma {:induction false} WithoutNone(list: seq<Resource>, name: string)
    requires forall i :: 0 <= i < |list| ==> list[i].name != name
    ensures Without(list, name) == list
    decreases |list|
  {
    if list != [] {
      WithoutNone(list[..|list| - 1], name);
      assert list == list[..|list| - 1] + [list[|list| - 1]];
    }
  }

  lemma UnknownIgnored(list: seq<Resource>, evt: Event)
    requires evt.kind in {Bookmark, Error} ||
      (evt.kind in {Modified, Deleted} && forall i :: 0 <= i < |list| ==> list[i].name != evt.obj.name)
    ensures Applied(list, evt) == list
  {
    if evt.kind == Deleted {
      WithoutNone(list, evt.obj.name);
    }
  }

  // ---------------------------------------------------------------- agreement

  // The list has unique names and is, as a map by name, m.
  ghost predicate Agrees(list: seq<Resource>, m: map<string, Resource>) {
    && (forall i :: 0 <= i < |list| ==> list[i].name in m && m[list[i].name] == list[i])
    && (forall i, j :: 0 <= i < j < |list| ==> list[i].name != list[j].name)
    && (forall k :: k in m ==> Listed(list, k))
  }

  ghost predicate Listed(list: seq<Resource>, name: string) {
    exists i :: 0 <= i < |list| && list[i].name == name
  }

  lemma {:induction false} WithoutElements(list: seq<Resource>, name: string)
    requires forall i, j :: 0 <= i < j < |list| ==> list[i].name != list[j].name
    ensures var l := Without(list, name);
      && (forall i :: 0 <= i < |l| ==> l[i] in list && l[i].name != name)
      && (forall i, j :: 0 <= i < j < |l| ==> l[i].name != l[j].name)
      && (forall r :: r in list && r.name != name ==> r in l)
  {
    if list != [] {
      WithoutElements(list[..|list| - 1], name);
    }
  }

  lemma AddedAgrees(list: seq<Resource>, m: map<string, Resource>, r: Resource)
    requires Agrees(list, m) && r.name !in m
    ensures Agrees(list + [r], m[r.name := r])
  {
    var l, m' := list + [r], m[r.name := r];
    forall k | k in m' ensures Listed(l, k) {
      if k == r.name {
        assert l[|list|].name == k;
      } else {
        var i :| 0 <= i < |list| && list[i].name == k;
        assert l[i].name == k;
      }
    }
  }

  lemma ModifiedAgrees(list: seq<Resource>, m: map<string, Resource>, r: Resource)
    requires Agrees(list, m) && r.name in m
    ensures IndexOf(list, r.name) < |list|
    ensures Agrees(list[IndexOf(list, r.name) := r], m[r.name := r])
  {
    hide IndexOf;
    var n := IndexOf(list, r.name);
    assert n < |list| by { assert Listed(list, r.name); }
    ReplacedAgrees(list, m, n, r);
  }

  lemma ReplacedAgrees(list: seq<Resource>, m: map<string, Resource>, n: nat, r: Resource)
    requires Agrees(list, m) && n < |list| && list[n].name == r.name
    ensures Agrees(list[n := r], m[r.name := r])
  {
    var l, m' := list[n := r], m[r.name := r];
    assert forall i :: 0 <= i < |l| ==> l[i].name == list[i].name;
    assert forall i :: 0 <= i < |list| && i != n ==> list[i].name != r.name;
    forall k | k in m' ensures Listed(l, k) {
      assert k in m && Listed(list, k);
      var i :| 0 <= i < |list| && list[i].name == k;
      assert l[i].name == k;
    }
    hide Listed;
  }

  lemma DeletedAgrees(list: seq<Resource>, m: map<string, Resource>, name: string)
    requires Agrees(list, m)
    ensures Agrees(Without(list, name), m - {name})
  {
    WithoutElements(list, name);
    var l, m' := Without(list, name), m - {name};
    forall k | k in m' ensures Listed(l, k) {
      assert Listed(list, k);
      var i :| 0 <= i < |list| && list[i].name == k;
      assert list[i] in l;
    }
  }

  // Updates keep the object's name, and so it is its key.
  ghost predicate NamesKept(log: seq<Change>) {
    forall i :: 0 <= i < |log| ==> log[i].event.obj.name == log[i].key
  }

  lemma ChangeAgrees(s: Store, list: seq<Resource>, i: nat)
    requires Inv(s) && NamesKept(s.published) && i < |s.published|
    requires Agrees(list, Replay(s.published[..i]))
    ensures Agrees(Applied(list, s.published[i].event), Replay(s.published[..i + 1]))
  {
    var c := s.published[i];
    var m := Replay(s.published[..i]);
    assert s.published[..i + 1][..i] == s.published[..i];
    assert Announced(s.published, i) && (Stored(c) || c.event.kind == Deleted) && c.event.obj.name == c.key;
    hide Inv, Agrees, NamesKept;
    match c.event.kind
    case Added => AddedAgrees(list, m, c.event.obj);
    case Modified => ModifiedAgrees(list, m, c.event.obj);
    case Deleted => DeletedAgrees(list, m, c.key);
  }

  // Whoever agrees with a store at one point of its log and applies the events from there on
  // agrees with it after each of them.
  lemma {:induction false} FollowsLog(s: Store, list: seq<Resource>, start: nat, events: seq<Event>)
    requires Inv(s) && NamesKept(s.published) && start + |events| <= |s.published|
    requires events == InMemoryStore.Events(s.published)[start..start + |events|]
    requires Agrees(list, Replay(s.published[..start]))
    ensures Agrees(ApplyAll(list, events), Replay(s.published[..start + |events|]))
    decreases |events|
  {
    hide Inv, Agrees, NamesKept, Replay, Applied;
    if events != [] {
      var n := |events| - 1;
      assert events[..n] == InMemoryStore.Events(s.published)[start..start + n];
      FollowsLog(s, list, start, events[..n]);
      ChangeAgrees(s, ApplyAll(list, events[..n]), start + n);
    }
  }

  // ---------------------------------------------------------------- list, then watch

  // A listing of a store whose objects carry their keys as names agrees with it.
  lemma ListingAgrees(s: Store, list: seq<Resource>, keys: seq<string>)
    requires Inv(s) && NamesKept(s.published) && InMemoryStore.Lists(list, keys, s.items)
    ensures Agrees(list, s.items)
  {
    forall k | k in s.items ensures s.items[k].name == k {
      var i: nat :| i < |s.published| && LastTouched(s, k, i);
    }
    hide Inv, NamesKept;
  }

  // The counter moves exactly when an object is created or updated, so this is all that Watch notices.
  lemma {:induction false} CounterNoticesWrites(s: Store, ops: seq<Op>)
    ensures s.published <= Run(s, ops).published && s.counter <= Run(s, ops).counter
    ensures Run(s, ops).counter == s.counter <==>
      forall i :: |s.published| <= i < |Run(s, ops).published| ==> Run(s, ops).published[i].event.kind == Deleted
    decreases |ops|
  {
    if ops != [] {
      var t := Apply(s, ops[0]);
      CounterNoticesWrites(t, ops[1..]);
      if Refusal(s, ops[0]).None? {
        assert |t.published| == |s.published| + 1;
        assert Run(t, ops[1..]).published[|s.published|] == t.published[|s.published|];
      }
    }
  }

  // No deletion is committed on the way.
  predicate DeletesNothing(s: Store, ops: seq<Op>)
    decreases |ops|
  {
    ops == [] ||
    ((ops[0].Delete? ==> Refusal(s, ops[0]).Some?) && DeletesNothing(Apply(s, ops[0]), ops[1..]))
  }

  // The watch was accepted with the list's version: the store still is what was listed if and only
  // if nothing was deleted in between.
  lemma {:induction false} AcceptedWatchIsCurrent(s: Store, ops: seq<Op>)
    requires Inv(s) && Run(s, ops).counter == s.counter
    ensures Run(s, ops).items.Keys <= s.items.Keys
    ensures Run(s, ops).items == s.items <==> DeletesNothing(s, ops)
    ensures DeletesNothing(s, ops) ==> Run(s, ops).published == s.published
    decreases |ops|
  {
    if ops != [] {
      var t := Apply(s, ops[0]);
      ApplyInv(s, ops[0]);
      CounterNoticesWrites(t, ops[1..]);
      assert Run(s, ops) == Run(t, ops[1..]);
      hide Inv, Run;
      if t.counter == s.counter {
        AcceptedWatchIsCurrent(t, ops[1..]);
        assert Refusal(s, ops[0]).None? ==> ops[0].key !in t.items;
      }
    }
  }

  // The whole of it. A client lists the store at s and is then accepted by Watch at t, with the
  // list's version, no deletion in between; u is any later state, and w its watcher, stopped or not,
  // which has not timed out. However many events the client has taken so far, its list is the store
  // at that point.
  lemma ReplicaAgreement(
    s: Store, list: seq<Resource>, keys: seq<string>, before: seq<Op>, after: seq<Op>, w: PubSub.Watcher)
    requires Inv(s) && InMemoryStore.Lists(list, keys, s.items)
    requires var t := Run(s, before);
      var u := Run(t, after);
      && t.counter == s.counter && DeletesNothing(s, before)
      && NamesKept(u.published)
      && PubSub.Entitled(w, InMemoryStore.Events(u.published)) && !w.timedOut
      && w.filter == PubSub.Selector("", "", "") && w.since == |t.published|
    ensures var u := Run(Run(s, before), after);
      && w.since + |w.received| <= |u.published|
      && Agrees(ApplyAll(list, w.received), Replay(u.published[..w.since + |w.received|]))
  {
    hide Inv, Agrees, NamesKept, Replay, ApplyAll, InMemoryStore.Lists;
    var t := Run(s, before);
    var u := Run(t, after);
    RunInv(s, before);
    RunInv(t, after);
    AcceptedWatchIsCurrent(s, before);
    NamesKeptPrefix(s.published, u.published);
    ListingAgrees(s, list, keys);
    InvReplays(s);
    assert u.published[..w.since] == s.published;
    Handed(w, u.published);
    FollowsLog(u, list, w.since, w.received);
  }

  lemma InvReplays(s: Store)
    requires Inv(s)
    ensures s.items == Replay(s.published)
  {
  }

  lemma NamesKeptPrefix(xs: seq<Change>, ys: seq<Change>)
    requires xs <= ys && NamesKept(ys)
    ensures NamesKept(xs)
  {
  }

  // The events handed to a watcher that has not timed out are the log from its subscription on.
  lemma Handed(w: PubSub.Watcher, log: seq<Change>)
    requires PubSub.Entitled(w, InMemoryStore.Events(log)) && !w.timedOut
    requires w.filter == PubSub.Selector("", "", "")
    ensures w.since + |w.received| <= |log|
    ensures w.received == InMemoryStore.Events(log)[w.since..w.since + |w.received|]
  {
    var events := InMemoryStore.Events(log);
    var due := events[w.since..PubSub.End(w, events)];
    PubSub.EmptySelectorTakesAll(due);
    assert w.received <= PubSub.Stream(w) <= due;
    assert w.received == due[..|w.received|];
  }

  // What the accepted watch does not notice: a deletion leaves the client with an object that the
  // store does not have.
  lemma UnnoticedDeletion(s: Store, list: seq<Resource>, keys: seq<string>, key: string)
    requires Inv(s) && NamesKept(s.published) && InMemoryStore.Lists(list, keys, s.items) && key in s.items
    ensures var t := Apply(s, Delete(key, _ => true));
      t.counter == s.counter && !Agrees(list, t.items) && key in s.items && key !in t.items
  {
    ListingAgrees(s, list, keys);
    assert Listed(list, key);
  }
}
