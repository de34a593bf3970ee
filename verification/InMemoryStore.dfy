/** The in-memory store: fields updated in place, every method proved against the operations of
    StoreSpec, every change published on the event bus. */
module InMemoryStore {
  import opened Resources
  import opened StoreSpec
  import PubSub
  import Sorting

  function Events(log: seq<Change>): seq<Event> {
    seq(|log|, i requires 0 <= i < |log| => log[i].event)
  }

  // A listing of the items: each exactly once.
  ghost predicate Lists(l: seq<Resource>, keys: seq<string>, items: map<string, Resource>) {
    && |l| == |keys| && (forall i :: 0 <= i < |l| ==> keys[i] in items && l[i] == items[keys[i]])
    && (forall i, j :: 0 <= i < j < |keys| ==> keys[i] != keys[j])
    && (forall k :: k in items ==> k in keys)
  }

  class InMemoryStore {
    var items: map<string, Resource>
    var counter: nat
    const pubsub: PubSub.PubSub
    ghost var changes: seq<Change>

    ghost function State(): Store
      reads this
    {
      Store(items, counter, changes)
    }

    ghost predicate Valid()
      reads this, pubsub
    {
      Inv(State()) && pubsub.Valid() && pubsub.published == Events(changes)
    }

    constructor ()
      ensures Valid() && State() == Empty && fresh(pubsub)
    {
      items := map[];
      counter := 0;
      pubsub := new PubSub.PubSub();
      changes := [];
      new;
      EmptyInv();
    }

    method Watch(version: Version) returns (err: Option<Error>, id: nat)
      requires Valid()
      modifies pubsub
      ensures Valid() && State() == old(State())
      ensures err == if version == Unset || version == Seq(counter) then None else Some(Gone)
      ensures err.Some? ==> unchanged(pubsub)
      ensures err.None? ==> id in pubsub.watchers && id !in old(pubsub.all) && id in pubsub.all
      ensures err.None? ==> pubsub.all[id].filter == PubSub.Selector("", "", "") && pubsub.all[id].since == |changes|
    {
      if version != Unset && version != Seq(counter) {
        return Some(Gone), 0;
      }
      id := pubsub.Subscribe(PubSub.Selector("", "", ""));
      err := None;
    }

    method List() returns (l: seq<Resource>, version: Version, keys: seq<string>)
      ensures version == Seq(counter) && Lists(l, keys, items) && Sorting.Sorted(keys)
    {
      version := Seq(counter);
      keys := [];
      var rest := items.Keys;
      while rest != {}
        invariant rest <= items.Keys && Sorting.Distinct(keys)
        invariant forall k :: k in items <==> k in keys || k in rest
        invariant forall i :: 0 <= i < |keys| ==> keys[i] !in rest
        decreases rest
      {
        var k :| k in rest;
        rest := rest - {k};
        keys := keys + [k];
      }
      var sorted := Sorting.Sort(keys);
      Sorting.DistinctPermuted(keys, sorted);
      keys := sorted;
      hide Sorting.Sorted;
      l := [];
      for i := 0 to |keys|
        invariant |l| == i && forall j :: 0 <= j < i ==> keys[j] in items && l[j] == items[keys[j]]
      {
        assert keys[i] in keys;
        l := l + [items[keys[i]]];
      }
    }

    method Get(key: string) returns (res: Option<Resource>)
      ensures res == if key in items then Some(items[key]) else None
    {
      res := if key in items then Some(items[key]) else None;
    }

    method Emit(kind: EventType, key: string, res: Resource)
      requires pubsub.Valid() && pubsub.published == Events(changes)
      modifies this`changes, pubsub
      ensures pubsub.Valid() && changes == old(changes) + [Change(key, Event(kind, res))]
      ensures pubsub.published == Events(changes)
    {
      changes := changes + [Change(key, Event(kind, res))];
      pubsub.Publish(Event(kind, res));
    }

    // setResourceVersion, the assignment to items and emit, with which Create and Update end.
    method Commit(kind: EventType, key: string, res: Resource) returns (res': Resource)
      requires Valid() && kind == (if key in items then Modified else Added)
      modifies this, pubsub
      ensures Valid() && res' == res.(version := Seq(old(counter) + 1))
      ensures State() == Put(old(State()), kind, key, res')
    {
      hide Inv, Events, PubSub.PubSub.Valid;
      PutInv(State(), kind, key, res.(version := Seq(counter + 1)));
      counter := counter + 1;
      res' := res.(version := Seq(counter));
      items := items[key := res'];
      Emit(kind, key, res');
    }

    method Create(key: string, res: Resource, now: nat) returns (err: Option<Error>, res': Resource)
      requires Valid()
      modifies this, pubsub
      ensures Valid() && err == old(Refusal(State(), Op.Create(key, res, now)))
      ensures State() == old(Apply(State(), Op.Create(key, res, now)))
      ensures err.None? ==> key in items && res' == items[key]
    {
      hide Inv, Events;
      res' := res;
      if key in items {
        return Some(AlreadyExists), res';
      }
      res' := res'.(name := key, created := if res.created == 0 then now else res.created);
      res' := Commit(Added, key, res');
      err := None;
    }

    method Delete(key: string, validate: Resource -> bool) returns (err: Option<Error>, res': Option<Resource>)
      requires Valid()
      modifies this, pubsub
      ensures Valid() && err == old(Refusal(State(), Op.Delete(key, validate)))
      ensures State() == old(Apply(State(), Op.Delete(key, validate)))
      ensures res' == if key in old(items) then Some(old(items)[key]) else None
    {
      hide Inv, Events, PubSub.PubSub.Valid;
      ApplyInv(State(), Op.Delete(key, validate));
      if key !in items {
        return Some(NotFound), None;
      }
      var existing := items[key];
      res' := Some(existing);
      if !validate(existing) {
        return Some(Rejected), res';
      }
      items := items - {key};
      Emit(Deleted, key, existing);
      err := None;
    }

    method Update(key: string, edit: Resource -> Option<Resource>) returns (err: Option<Error>, res': Resource)
      requires Valid()
      modifies this, pubsub
      ensures Valid() && err == old(Refusal(State(), Op.Update(key, edit)))
      ensures State() == old(Apply(State(), Op.Update(key, edit)))
      ensures err.None? ==> key in items && res' == items[key]
    {
      hide Inv, Events;
      res' := Resource("", "", "", Unset, 0, "", "");
      if key !in items {
        return Some(NotFound), res';
      }
      var existing := items[key];
      res' := existing;
      var edited := edit(res');
      if edited.None? {
        return Some(Rejected), res';
      }
      res' := edited.value;
      if existing.version != res'.version {
        return Some(Conflict), res';
      }
      res' := Commit(Modified, key, res');
      err := None;
    }
  }
}
