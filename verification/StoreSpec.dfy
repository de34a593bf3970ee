/** The resource store as a versioned map with optimistic locking: its operations as functions
    on a state, and what holds over every sequence of operations. */
module StoreSpec {
  import opened Resources

  // An event together with the key of the item it is about.
  datatype Change = Change(key: string, event: Event)

  datatype Store = Store(items: map<string, Resource>, counter: nat, published: seq<Change>)

  datatype Error = NotFound | AlreadyExists | Rejected | Conflict | Gone | WriteFailed

  datatype Op =
    | Create(key: string, res: Resource, now: nat)
    | Update(key: string, edit: Resource -> Option<Resource>)
    | Delete(key: string, validate: Resource -> bool)

  const Empty: Store := Store(map[], 0, [])

  // What Create makes of the caller's object.
  function Named(key: string, res: Resource, now: nat, n: nat): Resource {
    res.(name := key, version := Seq(n), created := if res.created == 0 then now else res.created)
  }

  // Storing r under key, with the event that announces it.
  function Put(s: Store, kind: EventType, key: string, r: Resource): Store {
    Store(s.items[key := r], s.counter + 1, s.published + [Change(key, Event(kind, r))])
  }

  function Remove(s: Store, key: string): Store
    requires key in s.items
  {
    Store(s.items - {key}, s.counter, s.published + [Change(key, Event(Deleted, s.items[key]))])
  }

  // The error an operation ends with, if any.
  function Refusal(s: Store, op: Op): Option<Error> {
    match op
    case Create(key, res, now) =>
      if key in s.items then Some(AlreadyExists) else None
    case Update(key, edit) =>
      if key !in s.items then Some(NotFound)
      else if edit(s.items[key]).None? then Some(Rejected)
      else if edit(s.items[key]).value.version != s.items[key].version then Some(Conflict)
      else None
    case Delete(key, validate) =>
      if key !in s.items then Some(NotFound)
      else if !validate(s.items[key]) then Some(Rejected)
      else None
  }

  function Apply(s: Store, op: Op): Store {
    if Refusal(s, op).Some? then s else
      match op
      case Create(key, res, now) => Put(s, Added, key, Named(key, res, now, s.counter + 1))
      case Update(key, edit) => Put(s, Modified, key, edit(s.items[key]).value.(version := Seq(s.counter + 1)))
      case Delete(key, validate) => Remove(s, key)
  }

  function Run(s: Store, ops: seq<Op>): Store
    decreases |ops|
  {
    if ops == [] then s else Run(Apply(s, ops[0]), ops[1..])
  }

  // The map that a log of changes amounts to.
  function Replay(log: seq<Change>): map<string, Resource> {
    if log == [] then map[] else
      var m := Replay(log[..|log| - 1]);
      var c := log[|log| - 1];
      if c.event.kind == Deleted then m - {c.key} else m[c.key := c.event.obj]
  }

  // What each operation does to the items. A created object is named by its key, numbered, dated
  // unless it was, and otherwise as given; nothing else changes.
  lemma CreateStores(s: Store, key: string, res: Resource, now: nat)
    ensures var t := Apply(s, Create(key, res, now));
      && key in t.items && t.items - {key} == s.items - {key}
      && (key in s.items ==> t == s)
      && (key !in s.items ==> var r := t.items[key];
            && r.name == key && r.version == Seq(t.counter) && t.counter > s.counter
            && r.kind == res.kind && r.namespace == res.namespace && r.spec == res.spec && r.status == res.status
            && (res.created != 0 ==> r.created == res.created) && (res.created == 0 ==> r.created == now))
  {
    assert key !in s.items ==> s.items - {key} == s.items;
  }

  // An update stores what the callback made of the item under a new number, or nothing at all.
  lemma UpdateStores(s: Store, key: string, edit: Resource -> Option<Resource>)
    ensures var t := Apply(s, Update(key, edit));
      if key in s.items && edit(s.items[key]).Some? && edit(s.items[key]).value.version == s.items[key].version then
        && t.items.Keys == s.items.Keys && t.items - {key} == s.items - {key}
        && t.items[key].version == Seq(t.counter) && t.counter > s.counter
        && t.items[key].(version := Unset) == edit(s.items[key]).value.(version := Unset)
      else t == s
  {
  }

  // A deletion removes the item alone and uses no number; a rejected one changes nothing.
  lemma DeleteRemoves(s: Store, key: string, validate: Resource -> bool)
    ensures var t := Apply(s, Delete(key, validate));
      if key in s.items && validate(s.items[key]) then
        t.items == s.items - {key} && t.counter == s.counter && |t.published| == |s.published| + 1
      else t == s
  {
  }

  // ---------------------------------------------------------------- invariant

  predicate Stored(c: Change) { c.event.kind == Added || c.event.kind == Modified }

  // The version under which a change stored its object.
  function Number(c: Change): nat {
    if c.event.obj.version.Seq? then c.event.obj.version.n else 0
  }

  // Position i of the log stored what is in s under key, and nothing touched that key afterwards.
  predicate LastTouched(s: Store, key: string, i: nat)
    requires i < |s.published|
  {
    && key in s.items && s.published[i].key == key && Stored(s.published[i])
    && s.published[i].event.obj == s.items[key]
    && forall j :: i < j < |s.published| ==> s.published[j].key != key
  }

  // A change announces what it did to the map before it.
  ghost predicate Announced(log: seq<Change>, i: nat)
    requires i < |log|
  {
    log[i].event.kind == Added <==> log[i].key !in Replay(log[..i])
  }

  ghost predicate Inv(s: Store) {
    && s.items == Replay(s.published)
    && (forall i :: 0 <= i < |s.published| ==> Announced(s.published, i))
    && (forall i :: 0 <= i < |s.published| ==>
          Stored(s.published[i]) || s.published[i].event.kind == Deleted)
    && (forall i :: 0 <= i < |s.published| && Stored(s.published[i]) ==>
          s.published[i].event.obj.version.Seq? && 0 < Number(s.published[i]) <= s.counter)
    && (forall i, j :: 0 <= i < j < |s.published| && Stored(s.published[i]) && Stored(s.published[j]) ==>
          Number(s.published[i]) < Number(s.published[j]))
    && (forall key :: key in s.items ==> exists i: nat :: i < |s.published| && LastTouched(s, key, i))
  }

  // A change of another key leaves this one's last change in place.
  lemma OthersUntouched(s: Store, t: Store, k: string, c: Change)
    requires Inv(s) && k in s.items && k in t.items && t.items[k] == s.items[k]
    requires t.published == s.published + [c] && c.key != k
    ensures exists i: nat :: i < |t.published| && LastTouched(t, k, i)
  {
    var i: nat :| i < |s.published| && LastTouched(s, k, i);
    assert LastTouched(t, k, i);
  }

  lemma AnnouncedPrefix(log: seq<Change>, c: Change)
    requires forall i :: 0 <= i < |log| ==> Announced(log, i)
    requires c.event.kind == Added <==> c.key !in Replay(log)
    ensures forall i :: 0 <= i < |log + [c]| ==> Announced(log + [c], i)
  {
    forall i | 0 <= i < |log + [c]| ensures Announced(log + [c], i) {
      assert (log + [c])[..i] == log[..i];
      if i < |log| {
        assert Announced(log, i);
      } else {
        assert log[..i] == log;
      }
    }
  }

  lemma PutInv(s: Store, kind: EventType, key: string, r: Resource)
    requires Inv(s) && kind == (if key in s.items then Modified else Added) && r.version == Seq(s.counter + 1)
    ensures Inv(Put(s, kind, key, r))
  {
    var t := Put(s, kind, key, r);
    assert t.published[..|t.published| - 1] == s.published;
    AnnouncedPrefix(s.published, Change(key, Event(kind, r)));
    assert LastTouched(t, key, |s.published|);
    forall k | k in t.items && k != key ensures exists i: nat :: i < |t.published| && LastTouched(t, k, i) {
      OthersUntouched(s, t, k, Change(key, Event(kind, r)));
    }
  }

  lemma RemoveInv(s: Store, key: string)
    requires Inv(s) && key in s.items
    ensures Inv(Remove(s, key))
  {
    hide LastTouched, Announced;
    var t := Remove(s, key);
    assert t.published[..|t.published| - 1] == s.published;
    AnnouncedPrefix(s.published, Change(key, Event(Deleted, s.items[key])));
    forall k | k in t.items ensures exists i: nat :: i < |t.published| && LastTouched(t, k, i) {
      OthersUntouched(s, t, k, Change(key, Event(Deleted, s.items[key])));
    }
  }

  lemma ApplyInv(s: Store, op: Op)
    requires Inv(s)
    ensures Inv(Apply(s, op))
  {
    hide Inv, Put, Remove;
    if Refusal(s, op).None? {
      match op
      case Create(key, res, now) => PutInv(s, Added, key, Named(key, res, now, s.counter + 1));
      case Update(key, edit) => PutInv(s, Modified, key, edit(s.items[key]).value.(version := Seq(s.counter + 1)));
      case Delete(key, validate) => RemoveInv(s, key);
    }
  }

  lemma ApplyGrows(s: Store, op: Op)
    ensures s.published <= Apply(s, op).published && s.counter <= Apply(s, op).counter
  {
  }

  // The store is exactly what its log of events amounts to, and numbers rise along the log.
  lemma {:induction false} RunInv(s: Store, ops: seq<Op>)
    requires Inv(s)
    ensures Inv(Run(s, ops))
    ensures s.published <= Run(s, ops).published && s.counter <= Run(s, ops).counter
    decreases |ops|
  {
    hide Inv, Apply;
    if ops != [] {
      ApplyInv(s, ops[0]);
      ApplyGrows(s, ops[0]);
      RunInv(Apply(s, ops[0]), ops[1..]);
    }
  }

  lemma EmptyInv()
    ensures Inv(Empty)
  {
  }

  // A number is given out once: of two writes in the history of a store, also of a key that was
  // deleted and created again, the later one has the greater number.
  lemma NumbersNeverReused(ops: seq<Op>, i: nat, j: nat)
    requires var log := Run(Empty, ops).published; i < j < |log| && Stored(log[i]) && Stored(log[j])
    ensures var t := Run(Empty, ops); 0 < Number(t.published[i]) < Number(t.published[j]) <= t.counter
  {
    EmptyInv();
    RunInv(Empty, ops);
  }

  // Two items never carry the same version, and no version exceeds the counter.
  lemma VersionsDistinct(s: Store, k1: string, k2: string)
    requires Inv(s) && k1 in s.items && k2 in s.items
    ensures s.items[k1].version.Seq? && s.items[k1].version.n <= s.counter
    ensures s.items[k1].version == s.items[k2].version ==> k1 == k2
  {
    var i: nat :| i < |s.published| && LastTouched(s, k1, i);
    var j: nat :| j < |s.published| && LastTouched(s, k2, j);
    assert Stored(s.published[i]) && Stored(s.published[j]);
  }

  // No lost update. A client read item key as o; anything happens; an update of key is then
  // accepted for an object that carries o's version. Then the item still is o, and nobody has
  // updated it, or deleted and created it again, in between.
  lemma NoLostUpdate(s: Store, ops: seq<Op>, key: string, edit: Resource -> Option<Resource>)
    requires Inv(s) && key in s.items
    requires var t := Run(s, ops);
      && Refusal(t, Update(key, edit)).None?
      && edit(t.items[key]).value.version == s.items[key].version
    ensures var t := Run(s, ops);
      && key in t.items && t.items[key] == s.items[key]
      && forall i :: |s.published| <= i < |t.published| ==> t.published[i].key != key
  {
    var t := Run(s, ops);
    RunInv(s, ops);
    var i: nat :| i < |s.published| && LastTouched(s, key, i);
    var j: nat :| j < |t.published| && LastTouched(t, key, j);
    assert s.published[i] == t.published[i];
    assert Stored(t.published[i]) && Stored(t.published[j]);
    assert Number(t.published[i]) == Number(t.published[j]);
    assert i == j;
  }

  // Conversely the update is accepted if nobody touched the item, whatever else happened.
  lemma UntouchedUpdateAccepted(s: Store, ops: seq<Op>, key: string, edit: Resource -> Option<Resource>)
    requires Inv(s) && key in s.items
    requires var t := Run(s, ops);
      forall i :: |s.published| <= i < |t.published| ==> t.published[i].key != key
    requires edit(s.items[key]).Some? && edit(s.items[key]).value.version == s.items[key].version
    ensures Refusal(Run(s, ops), Update(key, edit)).None?
  {
    var t := Run(s, ops);
    RunInv(s, ops);
    ReplayUntouched(s.published, t.published, key);
  }

  lemma {:induction false} ReplayUntouched(xs: seq<Change>, ys: seq<Change>, key: string)
    requires xs <= ys && forall i :: |xs| <= i < |ys| ==> ys[i].key != key
    ensures key in Replay(xs) <==> key in Replay(ys)
    ensures key in Replay(xs) ==> Replay(xs)[key] == Replay(ys)[key]
    decreases |ys|
  {
    if |xs| < |ys| {
      ReplayUntouched(xs, ys[..|ys| - 1], key);
    } else {
      assert xs == ys;
    }
  }
}
