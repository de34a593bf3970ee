/** The REST handlers over a store, and what they promise a client that reads, edits and writes. */
module Rest {
  import opened Resources
  import opened StoreSpec
  import InMemoryStore
  import PubSub

  datatype RestError = StoreError(error: Error) | Invalid | NoName | NoGeneratedName

  // The callback that Update passes to the store: the client's object, if it is valid.
  function Callback(updatedObject: Resource -> Option<Resource>, validation: (Resource, Resource) -> bool)
    : Resource -> Option<Resource>
  {
    obj =>
      var updated := updatedObject(obj);
      if updated.Some? && validation(updated.value, obj) then updated else None
  }

  class REST {
    const store: InMemoryStore.InMemoryStore

    constructor (store: InMemoryStore.InMemoryStore)
      ensures this.store == store
    {
      this.store := store;
    }

    // generated is the name made from generateName, None if that fails.
    method Create(
        obj: Resource, validation: Resource -> bool, generateName: string, generated: Option<string>, now: nat)
      returns (err: Option<RestError>, obj': Resource)
      requires store.Valid()
      modifies store, store.pubsub
      ensures store.Valid()
      ensures
        var name := if generateName != "" && generated.Some? then generated.value else obj.name;
        if !validation(obj) then err == Some(Invalid) && store.State() == old(store.State())
        else if generateName != "" && generated.None? then
          err == Some(NoGeneratedName) && store.State() == old(store.State())
        else if name == "" then err == Some(NoName) && store.State() == old(store.State())
        else
          && store.State() == old(Apply(store.State(), Op.Create(name, obj.(name := name), now)))
          && err == (match old(Refusal(store.State(), Op.Create(name, obj.(name := name), now)))
                     case None => None
                     case Some(e) => Some(StoreError(e)))
          && (err.None? ==> name in store.items && obj' == store.items[name])
    {
      hide Inv, InMemoryStore.Events;
      obj' := obj;
      if !validation(obj) {
        return Some(Invalid), obj';
      }
      if generateName != "" {
        if generated.None? {
          return Some(NoGeneratedName), obj';
        }
        obj' := obj'.(name := generated.value);
      }
      if obj'.name == "" {
        return Some(NoName), obj';
      }
      var e, r := store.Create(obj'.name, obj', now);
      if e.Some? {
        return Some(StoreError(e.value)), r;
      }
      return None, r;
    }

    method Update(key: string, updatedObject: Resource -> Option<Resource>, validation: (Resource, Resource) -> bool)
      returns (err: Option<Error>, obj: Resource)
      requires store.Valid()
      modifies store, store.pubsub
      ensures store.Valid()
      ensures store.State() == old(Apply(store.State(), Op.Update(key, Callback(updatedObject, validation))))
      ensures err == old(Refusal(store.State(), Op.Update(key, Callback(updatedObject, validation))))
      ensures err.None? ==> key in store.items && obj == store.items[key]
    {
      hide Inv, InMemoryStore.Events;
      err, obj := store.Update(key, Callback(updatedObject, validation));
    }

    method Delete(key: string, validation: Resource -> bool) returns (err: Option<Error>, res: Option<Resource>)
      requires store.Valid()
      modifies store, store.pubsub
      ensures store.Valid()
      ensures store.State() == old(Apply(store.State(), Op.Delete(key, validation)))
      ensures err == old(Refusal(store.State(), Op.Delete(key, validation)))
      ensures err.None? ==> key in old(store.items) && res == Some(old(store.items)[key])
    {
      hide Inv, InMemoryStore.Events;
      err, res := store.Delete(key, validation);
    }
  }

  // A client reads o under key, sends back an object made of it that carries o's version, and is
  // accepted. Then what is stored is that object, made of exactly what was in the store: nobody
  // touched the item in between, not even by deleting and creating it again.
  lemma AcceptedUpdateIsCurrent(
    s: Store, ops: seq<Op>, key: string, sent: Resource, validation: (Resource, Resource) -> bool)
    requires Inv(s) && key in s.items && sent.version == s.items[key].version
    requires Refusal(Run(s, ops), Update(key, Callback(_ => Some(sent), validation))).None?
    ensures var t := Run(s, ops);
      && key in t.items && t.items[key] == s.items[key]
      && (forall i :: |s.published| <= i < |t.published| ==> t.published[i].key != key)
      && Apply(t, Update(key, Callback(_ => Some(sent), validation))).items
         == t.items[key := sent.(version := Seq(t.counter + 1))]
  {
    hide Inv, Run;
    var edit := Callback(_ => Some(sent), validation);
    var t := Run(s, ops);
    assert forall obj :: edit(obj).Some? ==> edit(obj).value == sent;
    NoLostUpdate(s, ops, key, edit);
    assert edit(t.items[key]) == Some(sent);
  }

  // An object sent without a version is never accepted.
  lemma VersionRequired(s: Store, key: string, sent: Resource, validation: (Resource, Resource) -> bool)
    requires Inv(s) && sent.version == Unset
    ensures Refusal(s, Update(key, Callback(_ => Some(sent), validation))).Some?
  {
    if key in s.items {
      VersionsDistinct(s, key, key);
    }
  }

  // An object that the client fails to make, or that is not valid beside the stored one, is never
  // stored, whatever version it carries.
  lemma InvalidUpdateRefused(
    s: Store, key: string, updatedObject: Resource -> Option<Resource>, validation: (Resource, Resource) -> bool)
    requires key in s.items
    ensures Refusal(s, Update(key, Callback(updatedObject, validation))) == Some(Rejected) <==>
      updatedObject(s.items[key]).None? || !validation(updatedObject(s.items[key]).value, s.items[key])
    ensures Apply(s, Update(key, Callback(updatedObject, validation))) == s ||
      Some(Apply(s, Update(key, Callback(updatedObject, validation))).items[key].(version := s.items[key].version))
        == updatedObject(s.items[key])
  {
  }
}
