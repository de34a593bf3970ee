/** The file-backed store as it runs: a file system changed effect by effect, an in-memory store,
    and methods proved against the operations of FileStoreSpec. */
module FileStore {
  import opened Resources
  import opened StoreSpec
  import opened FileStoreSpec
  import InMemoryStore
  import PubSub

  class FileSystem {
    var files: Disk
    ghost var history: seq<Disk>     // the directory after each effect so far

    constructor (files: Disk)
      ensures this.files == files && history == []
    {
      this.files := files;
      history := [];
    }

    method Set(files': Disk)
      modifies this
      ensures files == files' && history == old(history) + [files']
    {
      files := files';
      history := history + [files'];
    }

    method TempFile() returns (ok: bool, name: string)
      modifies this
      ensures ok ==> IsTemp(name) && name !in old(files)
      ensures ok ==> files == old(files)[name := Partial] && history == old(history) + [files]
      ensures !ok ==> unchanged(this)
    {
      name := *;
      ok := *;
      ok := ok && name !in files && IsTemp(name);
      if ok {
        Set(files[name := Partial]);
      }
    }

    method Encode(name: string, r: Resource) returns (ok: bool)
      modifies this
      ensures ok ==> files == old(files)[name := File(r)] && history == old(history) + [files]
      ensures !ok ==> unchanged(this)
    {
      ok := *;
      if ok {
        Set(files[name := File(r)]);
      }
    }

    method Rename(src: string, dst: string) returns (ok: bool)
      requires src in files
      modifies this
      ensures ok ==> dst in old(files) ==> !old(files)[dst].Directory?
      ensures ok ==> files == (old(files) - {src})[dst := old(files)[src]] && history == old(history) + [files]
      ensures !ok ==> unchanged(this)
    {
      ok := *;
      ok := ok && (dst in files ==> !files[dst].Directory?);
      if ok {
        Set((files - {src})[dst := files[src]]);
      }
    }

    method Remove(name: string) returns (end: RemoveEnd)
      modifies this
      ensures end == Removed ==> name in old(files) && !old(files)[name].Directory?
      ensures end == Removed ==> files == old(files) - {name} && history == old(history) + [files]
      ensures end == Missing ==> name !in files
      ensures end != Removed ==> unchanged(this)
    {
      var ok: bool := *;
      if name !in files {
        end := Missing;
      } else if ok && !files[name].Directory? {
        Set(files - {name});
        end := Removed;
      } else {
        end := NotRemoved;
      }
    }

    // f.Sync and f.Close, which have no effect on the names and contents.
    method Flush() returns (ok: bool)
    {
      ok := *;
    }

    method ReadDir() returns (names: seq<string>)
      ensures forall name :: name in names <==> name in files
      ensures forall i, j :: 0 <= i < j < |names| ==> names[i] != names[j]
    {
      names := [];
      var rest := files.Keys;
      while rest != {}
        invariant rest <= files.Keys
        invariant forall name :: name in files <==> name in names || name in rest
        invariant forall i :: 0 <= i < |names| ==> names[i] !in rest
        invariant forall i, j :: 0 <= i < j < |names| ==> names[i] != names[j]
        decreases rest
      {
        var name :| name in rest;
        rest := rest - {name};
        names := names + [name];
      }
    }
  }

  // The keys that the first n of these names stand for.
  function KeysUpTo(files: Disk, names: seq<string>, n: nat): set<string>
    requires n <= |names|
  {
    set j | 0 <= j < n && names[j] in files && IsYaml(names[j]) && files[names[j]].File? :: KeyOf(names[j])
  }

  // What has been loaded from the first n of the names.
  ghost predicate Loaded(items: map<string, Resource>, files: Disk, names: seq<string>, n: nat, now: nat)
    requires n <= |names|
  {
    && items.Keys == KeysUpTo(files, names, n)
    && (forall k :: k in items ==> k in Contents(files) && Numbered(items[k], k, Contents(files)[k], now))
    && (forall j :: 0 <= j < n && names[j] in files && IsYaml(names[j]) ==> !files[names[j]].Partial?)
  }

  predicate Numbered(r: Resource, key: string, content: Resource, now: nat) {
    r.version.Seq? && r == Named(key, content, now, r.version.n)
  }

  lemma NoKeys(files: Disk, names: seq<string>)
    ensures KeysUpTo(files, names, 0) == {}
  {
  }

  lemma NextKey(files: Disk, names: seq<string>, n: nat)
    requires n < |names|
    ensures KeysUpTo(files, names, n + 1) == KeysUpTo(files, names, n) +
      if names[n] in files && IsYaml(names[n]) && files[names[n]].File? then {KeyOf(names[n])} else {}
  {
    hide KeyOf, IsYaml;
  }

  lemma NewKey(files: Disk, names: seq<string>, n: nat)
    requires n < |names| && IsYaml(names[n])
    requires forall i, j :: 0 <= i < j < |names| ==> names[i] != names[j]
    ensures KeyOf(names[n]) !in KeysUpTo(files, names, n)
  {
    forall name | IsYaml(name) ensures FileName(KeyOf(name)) == name { FileNameOfKey(name); }
    hide KeyOf, IsYaml, FileName;
  }

  lemma AllKeys(files: Disk, names: seq<string>)
    requires forall name :: name in names <==> name in files
    ensures KeysUpTo(files, names, |names|) == Contents(files).Keys
  {
    ContentsOf(files);
    forall k ensures IsYaml(FileName(k)) && KeyOf(FileName(k)) == k { FileNames(k); }
    hide KeyOf, IsYaml, FileName, Contents;
    forall k | k in Contents(files) ensures k in KeysUpTo(files, names, |names|) {
      assert FileName(k) in names;
      var j :| 0 <= j < |names| && names[j] == FileName(k);
    }
  }

  // loadFromFiles: temporary files, directories and other names are skipped, a .yaml file that does
  // not decode is an error, and otherwise the store that comes up holds exactly the others.
  method LoadFromFiles(dir: FileSystem, now: nat) returns (ok: bool, store: InMemoryStore.InMemoryStore)
    ensures fresh(store) && fresh(store.pubsub) && store.Valid()
    ensures ok == Readable(dir.files)
    ensures ok ==> ReadBack(store.items, Contents(dir.files), now)
  {
    hide Contents, ReadBack, Inv, InMemoryStore.Events, IsYaml, KeyOf, KeysUpTo, Numbered, Named, PubSub.PubSub.Valid;
    var files := dir.files;
    var names := dir.ReadDir();
    store := new InMemoryStore.InMemoryStore();
    ok := true;
    assert KeysUpTo(files, names, 0) == {} by { NoKeys(files, names); }
    for i := 0 to |names|
      invariant fresh(store) && fresh(store.pubsub) && store.Valid() && dir.files == files
      invariant Loaded(store.items, files, names, i, now)
    {
      var name := names[i];
      assert name in names;
      NextKey(files, names, i);
      if !files[name].Directory? && IsYaml(name) {
        if files[name].Partial? {
          return false, store;
        }
        var key := KeyOf(name);
        NewKey(files, names, i);
        KeyHasContent(files, name);
        NumberedNew(key, files[name].content, now, store.counter + 1);
        var err, _ := store.Create(key, files[name].content, now);
        if err.Some? {
          return false, store;
        }
      }
    }
    AllKeys(files, names);
    assert Readable(files) by {
      forall name | name in files && IsYaml(name) ensures !files[name].Partial? { assert name in names; }
    }
    LoadedReadBack(store.items, files, now);
  }

  lemma KeyHasContent(files: Disk, name: string)
    requires name in files && IsYaml(name) && files[name].File?
    ensures KeyOf(name) in Contents(files) && Contents(files)[KeyOf(name)] == files[name].content
  {
    ContentsOf(files);
  }

  lemma NumberedNew(key: string, content: Resource, now: nat, n: nat)
    ensures Numbered(Named(key, content, now, n), key, content, now)
  {
  }

  lemma LoadedReadBack(items: map<string, Resource>, files: Disk, now: nat)
    requires items.Keys == Contents(files).Keys
    requires forall k :: k in items ==> k in Contents(files) && Numbered(items[k], k, Contents(files)[k], now)
    ensures ReadBack(items, Contents(files), now)
  {
    hide Contents;
  }

  class FileStore {
    const inMemory: InMemoryStore.InMemoryStore
    const dir: FileSystem
    const hasStatus: bool

    ghost function State(): FStore
      reads inMemory, dir
    {
      FStore(inMemory.State(), dir.files)
    }

    ghost predicate Valid()
      reads inMemory, inMemory.pubsub, dir
    {
      inMemory.Valid()
    }

    constructor (inMemory: InMemoryStore.InMemoryStore, dir: FileSystem, hasStatus: bool)
      requires inMemory.Valid()
      ensures Valid() && this.inMemory == inMemory && this.dir == dir && this.hasStatus == hasStatus
    {
      this.inMemory := inMemory;
      this.dir := dir;
      this.hasStatus := hasStatus;
    }

    // What a caller learns of an operation: the file system did something possible, and state,
    // outcome and the directory's states in between are those of the operation.
    twostate predicate Did(op: Op, io: Io, new err: Option<Error>)
      reads inMemory, dir
    {
      && PossibleIo(old(dir.files), op.key, io)
      && State() == FApply(hasStatus, old(State()), op, io) && err == FRefusal(old(State()), op, io)
      && dir.history == old(dir.history) + FStates(hasStatus, old(State()), op, io)
    }

    method WriteFile(key: string, obj: Resource) returns (ok: bool, ghost io: Io)
      modifies dir
      ensures PossibleIo(old(dir.files), key, io) && ok == (io.write == Written)
      ensures var states := WriteStates(old(dir.files), key, Strip(hasStatus, obj), io);
        dir.files == Last(old(dir.files), states) && dir.history == old(dir.history) + states
      ensures ok ==> FileName(key) in dir.files && dir.files[FileName(key)].File?
                     && TellsOf(hasStatus, dir.files[FileName(key)].content, obj)
    {
      var o := Strip(hasStatus, obj);
      StripTells(hasStatus, obj);
      hide Strip, TellsOf, IsYaml, KeyOf, IsTemp, FileName;
      ghost var h, d0 := dir.history, dir.files;
      FileNames(key);
      var name;
      ok, name := dir.TempFile();
      if !ok {
        io := Io("", NoTemp, NotRemoved);
        return;
      }
      TempIsNotYaml(name);
      ok := dir.Encode(name, o);
      if !ok {
        var end := dir.Remove(name);
        io := Io(name, if end == Removed then NotEncoded else NotCleaned, NotRemoved);
        assert end == Removed ==> dir.files == d0 && h + [d0[name := Partial]] + [d0] == h + [d0[name := Partial], d0];
        return;
      }
      assert dir.files == d0[name := File(o)];
      assert h + [d0[name := Partial]] + [d0[name := File(o)]] == h + [d0[name := Partial], d0[name := File(o)]];
      ok := dir.Flush();
      if !ok {
        io := Io(name, NotSynced, NotRemoved);
        return;
      }
      ok := dir.Rename(name, FileName(key));
      io := Io(name, if ok then Written else NotRenamed, NotRemoved);
      if ok {
        assert dir.files == d0[FileName(key) := File(o)];
        assert h + [d0[name := Partial], d0[name := File(o)]] + [dir.files]
            == h + [d0[name := Partial], d0[name := File(o)], dir.files];
      }
    }

    method Create(key: string, res: Resource, now: nat) returns (err: Option<Error>, ghost io: Io)
      requires Valid()
      modifies inMemory, inMemory.pubsub, dir
      ensures Valid() && Did(Op.Create(key, res, now), io, err)
    {
      hide Inv, InMemoryStore.Events;
      io := Io("", NoTemp, NotRemoved);
      var found := inMemory.Get(key);
      if found.Some? {
        return Some(AlreadyExists), io;
      }
      var r := res.(name := key, created := if res.created == 0 then now else res.created);
      r := r.(version := Seq(inMemory.counter + 1));
      var ok;
      ok, io := WriteFile(key, r);
      if !ok {
        CounterInv(inMemory.State());
        inMemory.counter := inMemory.counter + 1;
        return Some(WriteFailed), io;
      }
      r := inMemory.Commit(Added, key, r);
      err := None;
    }

    method Delete(key: string, validate: Resource -> bool) returns (err: Option<Error>, ghost io: Io)
      requires Valid()
      modifies inMemory, inMemory.pubsub, dir
      ensures Valid() && Did(Op.Delete(key, validate), io, err)
    {
      hide Inv, InMemoryStore.Events;
      io := Io("", NoTemp, NotRemoved);
      var found := inMemory.Get(key);
      if found.None? {
        return Some(NotFound), io;
      }
      if !validate(found.value) {
        return Some(Rejected), io;
      }
      var end := dir.Remove(FileName(key));
      io := Io("", NoTemp, end);
      if end == NotRemoved {
        return Some(WriteFailed), io;
      }
      var refused, _ := inMemory.Delete(key, validate);
      err := refused;
    }

    method Update(key: string, edit: Resource -> Option<Resource>) returns (err: Option<Error>, ghost io: Io)
      requires Valid()
      modifies inMemory, inMemory.pubsub, dir
      ensures Valid() && Did(Op.Update(key, edit), io, err)
    {
      hide Inv, InMemoryStore.Events;
      io := Io("", NoTemp, NotRemoved);
      var existing := inMemory.Get(key);
      if existing.None? {
        return Some(NotFound), io;
      }
      var edited := edit(existing.value);
      if edited.None? {
        return Some(Rejected), io;
      }
      if edited.value != existing.value {
        var ok;
        ok, io := WriteFile(key, edited.value);
        if !ok {
          return Some(WriteFailed), io;
        }
      }
      var refused, _ := inMemory.Update(key, edit);
      err := refused;
    }
  }
}
