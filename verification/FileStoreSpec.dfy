/** The file-backed store: the resource store of StoreSpec mirrored into one file per item, written
    by temporary file and rename. Operations list every directory state a crash could leave. */
module FileStoreSpec {
  import opened Resources
  import opened StoreSpec

  // A file holds a complete encoding, or a part of one; the codec itself is taken to be lossless.
  datatype Entry = File(content: Resource) | Partial | Directory

  type Disk = map<string, Entry>

  const SUFFIX: string := ".yaml"
  const TEMP_PREFIX: string := ".tmp-"

  function FileName(key: string): string { key + SUFFIX }

  predicate IsYaml(name: string) {
    |name| >= 5 && name[|name| - 5..] == SUFFIX
  }

  function KeyOf(name: string): string
    requires IsYaml(name)
  {
    name[..|name| - 5]
  }

  // What the standard library calls a temporary file made from that prefix.
  predicate IsTemp(name: string) {
    TEMP_PREFIX <= name && forall i :: 5 <= i < |name| ==> '0' <= name[i] <= '9'
  }

  lemma FileNames(key: string)
    ensures IsYaml(FileName(key)) && KeyOf(FileName(key)) == key
  {
    assert FileName(key)[|key|..] == SUFFIX;
    assert FileName(key)[..|key|] == key;
  }

  lemma FileNameOfKey(name: string)
    requires IsYaml(name)
    ensures FileName(KeyOf(name)) == name
  {
  }

  lemma TempIsNotYaml(name: string)
    requires IsTemp(name)
    ensures !IsYaml(name)
  {
    assert SUFFIX[4] == 'l';
    assert |name| >= 5 ==> name[|name| - 5..][4] == name[|name| - 1];
  }

  // What is written of an item: no version, and no status where the kind has one.
  function Strip(hasStatus: bool, r: Resource): Resource {
    r.(version := Unset, status := if hasStatus then "" else r.status)
  }

  function StripAll(hasStatus: bool, items: map<string, Resource>): map<string, Resource> {
    map k | k in items :: Strip(hasStatus, items[k])
  }

  // What a file says of an item: everything but the version, and but the status where the kind has
  // one.
  predicate TellsOf(hasStatus: bool, file: Resource, item: Resource) {
    && file.version == Unset && file.status == (if hasStatus then "" else item.status)
    && file.kind == item.kind && file.namespace == item.namespace && file.name == item.name
    && file.created == item.created && file.spec == item.spec
  }

  lemma StripTells(hasStatus: bool, r: Resource)
    ensures TellsOf(hasStatus, Strip(hasStatus, r), r)
  {
  }

  // The .yaml files of the directory are exactly m.
  ghost predicate Mirrors(files: Disk, m: map<string, Resource>) {
    && (forall k :: k in m ==> FileName(k) in files && files[FileName(k)] == File(m[k]))
    && (forall name :: name in files && IsYaml(name) && !files[name].Directory? ==> KeyOf(name) in m)
  }

  // ---------------------------------------------------------------- loading

  function Keys(files: Disk): set<string> {
    set name | name in files && IsYaml(name) && files[name].File? :: KeyOf(name)
  }

  // What the complete .yaml files of a directory hold.
  function Contents(files: Disk): map<string, Resource> {
    map k | k in Keys(files) && FileName(k) in files && files[FileName(k)].File? :: files[FileName(k)].content
  }

  predicate Readable(files: Disk) {
    forall name :: name in files && IsYaml(name) ==> !files[name].Partial?
  }

  lemma ContentsOf(files: Disk)
    ensures forall name :: name in files && IsYaml(name) && files[name].File? ==>
      KeyOf(name) in Contents(files) && Contents(files)[KeyOf(name)] == files[name].content
    ensures forall k :: k in Contents(files) ==> FileName(k) in files && files[FileName(k)] == File(Contents(files)[k])
    ensures Readable(files) ==> Mirrors(files, Contents(files))
  {
    forall name | IsYaml(name) ensures FileName(KeyOf(name)) == name { FileNameOfKey(name); }
  }

  // A directory mirrors one map only.
  lemma MirroredIsContents(files: Disk, m: map<string, Resource>)
    requires Mirrors(files, m)
    ensures Readable(files) && Contents(files) == m
  {
    ContentsOf(files);
    forall k ensures IsYaml(FileName(k)) && KeyOf(FileName(k)) == k { FileNames(k); }
    forall name | name in files && IsYaml(name) ensures !files[name].Partial? {
      FileNameOfKey(name);
    }
  }

  // The items that a directory with these files is read back as: named after their files,
  // numbered in the order of reading, created now if the file does not say when.
  ghost predicate ReadBack(items: map<string, Resource>, m: map<string, Resource>, now: nat) {
    && items.Keys == m.Keys
    && forall k :: k in m ==> items[k].version.Seq? && items[k] == Named(k, m[k], now, items[k].version.n)
  }

  // Objects that carry their key as their name and know when they were created.
  predicate Plain(m: map<string, Resource>) {
    forall k :: k in m ==> m[k].name == k && m[k].created != 0
  }

  // Then nothing but versions is lost.
  lemma ReadBackPlain(hasStatus: bool, items: map<string, Resource>, old_: map<string, Resource>, now: nat)
    requires Plain(old_) && ReadBack(items, StripAll(hasStatus, old_), now)
    ensures StripAll(hasStatus, items) == StripAll(hasStatus, old_)
  {
    forall k | k in old_ ensures Strip(hasStatus, items[k]) == Strip(hasStatus, old_[k]) {
      assert StripAll(hasStatus, old_)[k] == Strip(hasStatus, old_[k]);
    }
  }

  // ---------------------------------------------------------------- writing

  // How far writeFile gets; tmp is the temporary file.
  datatype WriteEnd = NoTemp | NotEncoded | NotCleaned | NotSynced | NotRenamed | Written

  datatype RemoveEnd = Removed | Missing | NotRemoved

  datatype Io = Io(tmp: string, write: WriteEnd, remove: RemoveEnd)

  // The directory after each effect of writeFile.
  function WriteStates(files: Disk, key: string, r: Resource, io: Io): seq<Disk> {
    match io.write
    case NoTemp => []
    case NotEncoded => [files[io.tmp := Partial], files]
    case NotCleaned => [files[io.tmp := Partial]]
    case NotSynced => [files[io.tmp := Partial], files[io.tmp := File(r)]]
    case NotRenamed => [files[io.tmp := Partial], files[io.tmp := File(r)]]
    case Written => [files[io.tmp := Partial], files[io.tmp := File(r)], files[FileName(key) := File(r)]]
  }

  // The temporary name is new, and a directory is neither replaced nor removed.
  predicate PossibleIo(files: Disk, key: string, io: Io) {
    && (io.write != NoTemp ==> IsTemp(io.tmp) && io.tmp !in files)
    && (io.write == Written ==> FileName(key) in files ==> !files[FileName(key)].Directory?)
    && (io.remove == Removed ==> FileName(key) in files && !files[FileName(key)].Directory?)
    && (io.remove == Missing ==> FileName(key) !in files)
  }

  lemma TempMirrors(files: Disk, m: map<string, Resource>, tmp: string, e: Entry)
    requires Mirrors(files, m) && IsTemp(tmp)
    ensures Mirrors(files[tmp := e], m)
  {
    TempIsNotYaml(tmp);
    forall k ensures IsYaml(FileName(k)) { FileNames(k); }
  }

  // Wherever writeFile is interrupted the directory mirrors the map before or after it.
  lemma WriteCrashSafe(files: Disk, m: map<string, Resource>, key: string, r: Resource, io: Io)
    requires Mirrors(files, m) && PossibleIo(files, key, io)
    ensures var ds := WriteStates(files, key, r, io);
      && (forall d :: d in ds ==> Mirrors(d, m) || Mirrors(d, m[key := r]))
      && (ds != [] ==> Mirrors(ds[|ds| - 1], if io.write == Written then m[key := r] else m))
  {
    if io.write != NoTemp {
      TempMirrors(files, m, io.tmp, Partial);
      TempMirrors(files, m, io.tmp, File(r));
    }
    WriteMirrors(files, m, key, r);
    hide Mirrors;
  }

  lemma WriteMirrors(files: Disk, m: map<string, Resource>, key: string, r: Resource)
    requires Mirrors(files, m)
    ensures Mirrors(files[FileName(key) := File(r)], m[key := r])
  {
    forall k ensures IsYaml(FileName(k)) && KeyOf(FileName(k)) == k { FileNames(k); }
    var files' := files[FileName(key) := File(r)];
    forall name | name in files' && IsYaml(name) && !files'[name].Directory? ensures KeyOf(name) in m[key := r] {
      if name != FileName(key) {
        assert files'[name] == files[name];
      }
    }
    forall k | k in m[key := r] ensures FileName(k) in files' && files'[FileName(k)] == File(m[key := r][k]) {
      if k != key {
        assert FileName(k) != FileName(key);
      }
    }
  }

  lemma RemoveMirrors(files: Disk, m: map<string, Resource>, key: string)
    requires Mirrors(files, m)
    ensures Mirrors(files - {FileName(key)}, m - {key})
  {
    forall k ensures IsYaml(FileName(k)) && KeyOf(FileName(k)) == k { FileNames(k); }
    forall name | IsYaml(name) ensures FileName(KeyOf(name)) == name { FileNameOfKey(name); }
  }

  // ---------------------------------------------------------------- operations

  datatype FStore = FStore(mem: Store, files: Disk)

  function Last(files: Disk, states: seq<Disk>): Disk {
    if states == [] then files else states[|states| - 1]
  }

  // The object Update hands to writeFile, if it comes that far and differs from the stored one.
  function Edited(s: FStore, key: string, edit: Resource -> Option<Resource>): Option<Resource> {
    if key in s.mem.items && edit(s.mem.items[key]) != Some(s.mem.items[key]) then edit(s.mem.items[key]) else None
  }

  function FRefusal(s: FStore, op: Op, io: Io): Option<Error> {
    match op
    case Create(key, res, now) =>
      if key in s.mem.items then Some(AlreadyExists)
      else if io.write != Written then Some(WriteFailed) else None
    case Update(key, edit) =>
      if Refusal(s.mem, op) in {Some(NotFound), Some(Rejected)} then Refusal(s.mem, op)
      else if Edited(s, key, edit).Some? && io.write != Written then Some(WriteFailed)
      else Refusal(s.mem, op)
    case Delete(key, validate) =>
      if Refusal(s.mem, op).Some? then Refusal(s.mem, op)
      else if io.remove == NotRemoved then Some(WriteFailed) else None
  }

  // Every directory state the operation goes through.
  function FStates(hasStatus: bool, s: FStore, op: Op, io: Io): seq<Disk> {
    match op
    case Create(key, res, now) =>
      if key in s.mem.items then []
      else WriteStates(s.files, key, Strip(hasStatus, Named(key, res, now, s.mem.counter + 1)), io)
    case Update(key, edit) =>
      if Edited(s, key, edit).None? then []
      else WriteStates(s.files, key, Strip(hasStatus, Edited(s, key, edit).value), io)
    case Delete(key, validate) =>
      if Refusal(s.mem, op).Some? || io.remove != Removed then [] else [s.files - {FileName(key)}]
  }

  function FApply(hasStatus: bool, s: FStore, op: Op, io: Io): FStore {
    FStore(
      if FRefusal(s, op, io).None? then Apply(s.mem, op)
      else if op.Create? && op.key !in s.mem.items then s.mem.(counter := s.mem.counter + 1)
      else s.mem,
      Last(s.files, FStates(hasStatus, s, op, io)))
  }

  ghost predicate Mirror(hasStatus: bool, s: FStore) {
    Mirrors(s.files, StripAll(hasStatus, s.mem.items))
  }

  // The callback of an Update leaves the version alone.
  predicate KeepsVersion(s: FStore, op: Op) {
    op.Update? && op.key in s.mem.items && op.edit(s.mem.items[op.key]).Some?
    ==> op.edit(s.mem.items[op.key]).value.version == s.mem.items[op.key].version
  }

  // The one case in which something is written and not stored: the callback yields an object of
  // another version, which is written before the version is checked, and differs in the file.
  predicate WrittenOnly(hasStatus: bool, s: FStore, op: Op, io: Io) {
    && op.Update? && op.key in s.mem.items && io.write == Written
    && var item := s.mem.items[op.key];
       var edited := op.edit(item);
       edited.Some? && edited.value.version != item.version && Strip(hasStatus, edited.value) != Strip(hasStatus, item)
  }

  lemma StripUpdate(hasStatus: bool, items: map<string, Resource>, key: string, r: Resource)
    ensures StripAll(hasStatus, items[key := r]) == StripAll(hasStatus, items)[key := Strip(hasStatus, r)]
    ensures StripAll(hasStatus, items - {key}) == StripAll(hasStatus, items) - {key}
  {
  }

  // What the directory is to mirror once the operation is through.
  function Goal(hasStatus: bool, s: FStore, op: Op): map<string, Resource> {
    var m := StripAll(hasStatus, s.mem.items);
    match op
    case Create(key, res, now) =>
      if key in s.mem.items then m else m[key := Strip(hasStatus, Named(key, res, now, s.mem.counter + 1))]
    case Update(key, edit) =>
      if Edited(s, key, edit).None? then m else m[key := Strip(hasStatus, Edited(s, key, edit).value)]
    case Delete(key, validate) =>
      if Refusal(s.mem, op).Some? then m else m - {key}
  }

  // A crash at any point of any operation leaves the state before or after it, other keys untouched.
  lemma CrashSafe(hasStatus: bool, s: FStore, op: Op, io: Io)
    requires Mirror(hasStatus, s) && PossibleIo(s.files, op.key, io)
    ensures var ds := FStates(hasStatus, s, op, io);
      && (forall d :: d in ds ==> Mirrors(d, StripAll(hasStatus, s.mem.items)) || Mirrors(d, Goal(hasStatus, s, op)))
      && Mirrors(Last(s.files, ds),
           if Ineffective(op, io) then StripAll(hasStatus, s.mem.items) else Goal(hasStatus, s, op))
  {
    hide Mirrors, StripAll, WriteStates, Strip, Named, FileName;
    var m := StripAll(hasStatus, s.mem.items);
    match op
    case Create(key, res, now) =>
      WriteCrashSafe(s.files, m, key, Strip(hasStatus, Named(key, res, now, s.mem.counter + 1)), io);
      WriteBegins(s.files, key, Strip(hasStatus, Named(key, res, now, s.mem.counter + 1)), io);
    case Update(key, edit) =>
      if Edited(s, key, edit).Some? {
        WriteCrashSafe(s.files, m, key, Strip(hasStatus, Edited(s, key, edit).value), io);
        WriteBegins(s.files, key, Strip(hasStatus, Edited(s, key, edit).value), io);
      }
    case Delete(key, validate) =>
      RemoveMirrors(s.files, m, key);
      if Refusal(s.mem, op).None? && io.remove == Missing {
        MissingMirrors(s.files, m, key);
      }
  }

  lemma WriteBegins(files: Disk, key: string, r: Resource, io: Io)
    ensures WriteStates(files, key, r, io) == [] <==> io.write == NoTemp
  {
  }

  // Without its file a key is not in a mirrored map.
  lemma MissingMirrors(files: Disk, m: map<string, Resource>, key: string)
    requires Mirrors(files, m) && FileName(key) !in files
    ensures Mirrors(files, m - {key})
  {
    assert key !in m;
    assert m - {key} == m;
  }

  // What an operation that is not refused leaves in memory is what was to be mirrored.
  lemma GoalReached(hasStatus: bool, s: FStore, op: Op, io: Io)
    ensures StripAll(hasStatus, FApply(hasStatus, s, op, io).mem.items)
      == if FRefusal(s, op, io).None? then Goal(hasStatus, s, op) else StripAll(hasStatus, s.mem.items)
  {
    match op
    case Create(key, res, now) =>
      StripUpdate(hasStatus, s.mem.items, key, Named(key, res, now, s.mem.counter + 1));
      hide StripAll;
    case Update(key, edit) =>
      if FRefusal(s, op, io).None? {
        StripUpdate(hasStatus, s.mem.items, key, edit(s.mem.items[key]).value.(version := Seq(s.mem.counter + 1)));
        assert Strip(hasStatus, edit(s.mem.items[key]).value.(version := Seq(s.mem.counter + 1)))
            == Strip(hasStatus, edit(s.mem.items[key]).value);
        assert StripAll(hasStatus, s.mem.items)[key] == Strip(hasStatus, s.mem.items[key]);
      }
    case Delete(key, validate) =>
      StripUpdate(hasStatus, s.mem.items, key, Resource("", "", "", Unset, 0, "", ""));
      hide StripAll;
  }

  // An operation keeps the mirror exact if and only if it does not end in a conflict over an
  // edited object: writeFile comes before the version check.
  lemma MirrorKept(hasStatus: bool, s: FStore, op: Op, io: Io)
    requires Mirror(hasStatus, s) && PossibleIo(s.files, op.key, io)
    ensures Mirror(hasStatus, FApply(hasStatus, s, op, io)) <==> !WrittenOnly(hasStatus, s, op, io)
    ensures KeepsVersion(s, op) ==> !WrittenOnly(hasStatus, s, op, io)
  {
    hide Mirrors, StripAll, FStates, Goal, Apply, Strip, PossibleIo;
    CrashSafe(hasStatus, s, op, io);
    GoalReached(hasStatus, s, op, io);
    if WrittenOnly(hasStatus, s, op, io) {
      FileDiffers(hasStatus, s, op, io);
    } else {
      FilesFollow(hasStatus, s, op, io);
    }
  }

  // The file system did nothing that the directory's map would show.
  predicate Ineffective(op: Op, io: Io) {
    (op.Delete? && io.remove == NotRemoved) || (!op.Delete? && io.write != Written)
  }

  // In every other case an operation is refused exactly if the file system did nothing, unless there
  // was nothing to do.
  lemma FilesFollow(hasStatus: bool, s: FStore, op: Op, io: Io)
    requires !WrittenOnly(hasStatus, s, op, io)
    ensures (FRefusal(s, op, io).Some? <==> Ineffective(op, io))
         || Goal(hasStatus, s, op) == StripAll(hasStatus, s.mem.items)
  {
    if op.Update? && Edited(s, op.key, op.edit).Some? && io.write == Written {
      var m := StripAll(hasStatus, s.mem.items);
      assert m[op.key] == Strip(hasStatus, s.mem.items[op.key]);
      hide StripAll, Strip;
      assert m[op.key := m[op.key]] == m;
    }
  }

  lemma FileDiffers(hasStatus: bool, s: FStore, op: Op, io: Io)
    requires Mirror(hasStatus, s) && PossibleIo(s.files, op.key, io) && WrittenOnly(hasStatus, s, op, io)
    ensures !Mirror(hasStatus, FApply(hasStatus, s, op, io))
  {
    var t := FApply(hasStatus, s, op, io);
    assert t.files[FileName(op.key)] == File(Strip(hasStatus, op.edit(s.mem.items[op.key]).value));
    assert StripAll(hasStatus, t.mem.items)[op.key] == Strip(hasStatus, s.mem.items[op.key]);
  }

  // The files of a mirror hold the items, one each, and never a version or, of a kind that has one, a
  // status.
  ghost predicate FilesTell(hasStatus: bool, files: Disk, items: map<string, Resource>) {
    && Contents(files).Keys == items.Keys
    && forall k :: k in items && k in Contents(files) ==> TellsOf(hasStatus, Contents(files)[k], items[k])
  }

  lemma MirrorTells(hasStatus: bool, files: Disk, items: map<string, Resource>)
    requires Mirrors(files, StripAll(hasStatus, items))
    ensures Readable(files) && FilesTell(hasStatus, files, items)
  {
    MirroredIsContents(files, StripAll(hasStatus, items));
    hide Mirrors, Contents, TellsOf, Strip;
    forall k | k in items ensures TellsOf(hasStatus, StripAll(hasStatus, items)[k], items[k]) {
      StripTells(hasStatus, items[k]);
    }
  }

  // The items that an operation which is carried out leaves, versions aside.
  function Wanted(s: FStore, op: Op): map<string, Resource> {
    match op
    case Create(key, res, now) =>
      if key in s.mem.items then s.mem.items else s.mem.items[key := Named(key, res, now, s.mem.counter + 1)]
    case Update(key, edit) =>
      if Edited(s, key, edit).None? then s.mem.items else s.mem.items[key := Edited(s, key, edit).value]
    case Delete(key, validate) =>
      if Refusal(s.mem, op).Some? then s.mem.items else s.mem.items - {key}
  }

  lemma GoalIsWanted(hasStatus: bool, s: FStore, op: Op)
    ensures Goal(hasStatus, s, op) == StripAll(hasStatus, Wanted(s, op))
  {
    hide Refusal;
    match op
    case Create(key, res, now) => StripUpdate(hasStatus, s.mem.items, key, Named(key, res, now, s.mem.counter + 1));
    case Update(key, edit) =>
      if Edited(s, key, edit).Some? {
        StripUpdate(hasStatus, s.mem.items, key, Edited(s, key, edit).value);
      }
    case Delete(key, validate) => StripUpdate(hasStatus, s.mem.items, key, Resource("", "", "", Unset, 0, "", ""));
    hide StripAll, Strip;
  }

  // A refused operation leaves the items and publishes nothing; a creation that fails to write has used
  // up a number all the same.
  lemma RefusedKeeps(hasStatus: bool, s: FStore, op: Op, io: Io)
    requires FRefusal(s, op, io).Some?
    ensures var t := FApply(hasStatus, s, op, io);
      && t.mem.items == s.mem.items && t.mem.published == s.mem.published
      && t.mem.counter == s.mem.counter + if op.Create? && FRefusal(s, op, io) == Some(WriteFailed) then 1 else 0
  {
  }

  // An update that changes nothing touches no file, and no failing write can refuse it.
  lemma UnchangedNotWritten(hasStatus: bool, s: FStore, key: string, edit: Resource -> Option<Resource>, io: Io)
    requires key in s.mem.items && edit(s.mem.items[key]) == Some(s.mem.items[key])
    ensures FStates(hasStatus, s, Update(key, edit), io) == [] && FRefusal(s, Update(key, edit), io).None?
    ensures FApply(hasStatus, s, Update(key, edit), io) == FStore(Apply(s.mem, Update(key, edit)), s.files)
  {
  }

  // ---------------------------------------------------------------- runs

  datatype Call = Call(op: Op, io: Io)

  function FRun(hasStatus: bool, s: FStore, calls: seq<Call>): FStore
    decreases |calls|
  {
    if calls == [] then s else FRun(hasStatus, FApply(hasStatus, s, calls[0].op, calls[0].io), calls[1..])
  }

  // Every call meets a possible file system, and no callback changes the version.
  predicate WellBehaved(hasStatus: bool, s: FStore, calls: seq<Call>)
    decreases |calls|
  {
    calls == [] ||
    (PossibleIo(s.files, calls[0].op.key, calls[0].io) && KeepsVersion(s, calls[0].op)
     && WellBehaved(hasStatus, FApply(hasStatus, s, calls[0].op, calls[0].io), calls[1..]))
  }

  lemma FApplyInv(hasStatus: bool, s: FStore, op: Op, io: Io)
    requires Inv(s.mem)
    ensures Inv(FApply(hasStatus, s, op, io).mem)
  {
    hide Inv, Apply;
    ApplyInv(s.mem, op);
    CounterInv(s.mem);
  }

  // A failed Create has used up a number.
  lemma CounterInv(s: Store)
    requires Inv(s)
    ensures Inv(s.(counter := s.counter + 1))
  {
    var t := s.(counter := s.counter + 1);
    forall key | key in t.items ensures exists i: nat :: i < |t.published| && LastTouched(t, key, i) {
      var i: nat :| i < |s.published| && LastTouched(s, key, i);
      assert LastTouched(t, key, i);
    }
  }

  // Over every such run, including failing writes, the files are the stripped items; and whatever
  // the next operation is, a crash inside it leaves the directory of the state before or after it.
  lemma {:induction false} MirrorRun(hasStatus: bool, s: FStore, calls: seq<Call>, op: Op, io: Io)
    requires Mirror(hasStatus, s) && Inv(s.mem) && WellBehaved(hasStatus, s, calls)
    ensures var t := FRun(hasStatus, s, calls);
      && Mirror(hasStatus, t) && Inv(t.mem) && FilesTell(hasStatus, t.files, t.mem.items)
      && (PossibleIo(t.files, op.key, io) ==>
            forall d :: d in FStates(hasStatus, t, op, io) ==>
              Mirrors(d, StripAll(hasStatus, t.mem.items)) || Mirrors(d, Goal(hasStatus, t, op)))
    decreases |calls|
  {
    assert calls == [] ==> Mirrors(s.files, StripAll(hasStatus, s.mem.items));
    hide Inv, Mirror, FApply, PossibleIo, KeepsVersion, FStates, Goal, Mirrors, WrittenOnly, StripAll, FilesTell;
    if calls == [] {
      MirrorTells(hasStatus, s.files, s.mem.items);
      if PossibleIo(s.files, op.key, io) { CrashSafe(hasStatus, s, op, io); }
    } else {
      MirrorKept(hasStatus, s, calls[0].op, calls[0].io);
      FApplyInv(hasStatus, s, calls[0].op, calls[0].io);
      MirrorRun(hasStatus, FApply(hasStatus, s, calls[0].op, calls[0].io), calls[1..], op, io);
    }
  }

  // Loading such a directory brings back exactly one of these two states.
  lemma CrashReload(hasStatus: bool, s: FStore, calls: seq<Call>, op: Op, io: Io, d: Disk)
    requires Mirror(hasStatus, s) && Inv(s.mem) && WellBehaved(hasStatus, s, calls)
    requires var t := FRun(hasStatus, s, calls);
      PossibleIo(t.files, op.key, io) && (d == t.files || d in FStates(hasStatus, t, op, io))
    ensures var t := FRun(hasStatus, s, calls);
      && Readable(d) && (Contents(d) == StripAll(hasStatus, t.mem.items) || Contents(d) == Goal(hasStatus, t, op))
      && (FilesTell(hasStatus, d, t.mem.items) || FilesTell(hasStatus, d, Wanted(t, op)))
  {
    hide Inv, FApply, FRun, PossibleIo, FStates, Goal, Mirrors, StripAll, Contents, Readable, FilesTell, Wanted;
    var t := FRun(hasStatus, s, calls);
    MirrorRun(hasStatus, s, calls, op, io);
    GoalIsWanted(hasStatus, t, op);
    if Mirrors(d, StripAll(hasStatus, t.mem.items)) {
      MirroredIsContents(d, StripAll(hasStatus, t.mem.items));
      MirrorTells(hasStatus, d, t.mem.items);
    } else {
      MirroredIsContents(d, Goal(hasStatus, t, op));
      MirrorTells(hasStatus, d, Wanted(t, op));
    }
  }

  // ---------------------------------------------------------------- restarts

  // Objects as they are in files.
  predicate Stripped(hasStatus: bool, m: map<string, Resource>) {
    forall k :: k in m ==> Strip(hasStatus, m[k]) == m[k]
  }

  // A store that was loaded from a directory mirrors into it again if and only if the objects in it
  // carry their keys as names and know when they were created.
  lemma ReloadMirrors(hasStatus: bool, files: Disk, m: map<string, Resource>, items: map<string, Resource>, now: nat)
    requires Mirrors(files, m) && Stripped(hasStatus, m) && ReadBack(items, Contents(files), now) && now != 0
    ensures Mirrors(files, StripAll(hasStatus, items)) <==> Plain(m)
    ensures Plain(m) ==> StripAll(hasStatus, items) == m && Plain(items)
  {
    hide Mirrors, Contents, StripAll, Stripped, Plain;
    MirroredIsContents(files, m);
    StrippedAlready(hasStatus, m);
    if Plain(m) {
      ReadBackPlain(hasStatus, items, m, now);
      ReadBackIsPlain(items, m, now);
    }
    if Mirrors(files, StripAll(hasStatus, items)) {
      MirroredIsContents(files, StripAll(hasStatus, items));
      ReadBackIsPlain(items, m, now);
      StripKeepsPlain(hasStatus, items);
    }
  }

  lemma StrippedAlready(hasStatus: bool, m: map<string, Resource>)
    requires Stripped(hasStatus, m)
    ensures StripAll(hasStatus, m) == m
  {
  }

  lemma ReadBackIsPlain(items: map<string, Resource>, m: map<string, Resource>, now: nat)
    requires ReadBack(items, m, now) && now != 0
    ensures Plain(items)
  {
  }

  lemma StripKeepsPlain(hasStatus: bool, items: map<string, Resource>)
    requires Plain(items)
    ensures Plain(StripAll(hasStatus, items))
  {
    forall k | k in items ensures Strip(hasStatus, items[k]).name == k && Strip(hasStatus, items[k]).created != 0 {}
  }

  // The clock runs, and callbacks neither rename objects nor forget when they were created.
  predicate KeepsIdentity(s: FStore, op: Op) {
    match op
    case Create(key, res, now) => now != 0
    case Update(key, edit) =>
      key in s.mem.items && edit(s.mem.items[key]).Some? ==>
        edit(s.mem.items[key]).value.name == key && edit(s.mem.items[key]).value.created != 0
    case Delete(key, validate) => true
  }

  predicate AllKeepIdentity(hasStatus: bool, s: FStore, calls: seq<Call>)
    decreases |calls|
  {
    calls == [] ||
    (KeepsIdentity(s, calls[0].op)
     && AllKeepIdentity(hasStatus, FApply(hasStatus, s, calls[0].op, calls[0].io), calls[1..]))
  }

  lemma IdentityKept(hasStatus: bool, s: FStore, op: Op, io: Io)
    requires Plain(s.mem.items) && KeepsIdentity(s, op)
    ensures Plain(FApply(hasStatus, s, op, io).mem.items)
  {
    hide FStates, FRefusal;
  }

  lemma GoalPlain(hasStatus: bool, s: FStore, op: Op)
    requires Plain(s.mem.items) && KeepsIdentity(s, op)
    ensures Plain(Goal(hasStatus, s, op)) && Stripped(hasStatus, Goal(hasStatus, s, op))
    ensures Plain(StripAll(hasStatus, s.mem.items)) && Stripped(hasStatus, StripAll(hasStatus, s.mem.items))
  {
    StrippedPlain(hasStatus, s.mem.items);
    hide StripAll;
  }

  lemma StrippedPlain(hasStatus: bool, m: map<string, Resource>)
    requires Plain(m)
    ensures Plain(StripAll(hasStatus, m)) && Stripped(hasStatus, StripAll(hasStatus, m))
  {
  }

  lemma {:induction false} IdentityRun(hasStatus: bool, s: FStore, calls: seq<Call>)
    requires Plain(s.mem.items) && AllKeepIdentity(hasStatus, s, calls)
    ensures Plain(FRun(hasStatus, s, calls).mem.items)
    decreases |calls|
  {
    hide FApply, Plain, KeepsIdentity, Goal, StripAll, Stripped;
    if calls != [] {
      IdentityKept(hasStatus, s, calls[0].op, calls[0].io);
      IdentityRun(hasStatus, FApply(hasStatus, s, calls[0].op, calls[0].io), calls[1..]);
    }
  }

  // A stretch of a store's life: calls, one more that a crash cuts short at some directory state, and
  // the store that is loaded from that directory.
  datatype Stretch = Stretch(calls: seq<Call>, cut: Call, files: Disk, loaded: Store, now: nat)

  ghost predicate PossibleStretch(hasStatus: bool, s: FStore, p: Stretch) {
    && WellBehaved(hasStatus, s, p.calls) && AllKeepIdentity(hasStatus, s, p.calls)
    && var t := FRun(hasStatus, s, p.calls);
    && PossibleIo(t.files, p.cut.op.key, p.cut.io) && KeepsIdentity(t, p.cut.op)
    && (p.files == t.files || p.files in FStates(hasStatus, t, p.cut.op, p.cut.io))
    && Inv(p.loaded) && ReadBack(p.loaded.items, Contents(p.files), p.now) && p.now != 0
  }

  ghost predicate PossibleLife(hasStatus: bool, s: FStore, life: seq<Stretch>)
    decreases |life|
  {
    life == [] ||
    (PossibleStretch(hasStatus, s, life[0])
     && PossibleLife(hasStatus, FStore(life[0].loaded, life[0].files), life[1..]))
  }

  // What is loaded is the stripped state before or after the call that was cut short.
  predicate Survives(hasStatus: bool, s: FStore, p: Stretch) {
    var t := FRun(hasStatus, s, p.calls);
    StripAll(hasStatus, p.loaded.items) in {StripAll(hasStatus, t.mem.items), Goal(hasStatus, t, p.cut.op)}
  }

  predicate AllSurvive(hasStatus: bool, s: FStore, life: seq<Stretch>)
    decreases |life|
  {
    life == [] ||
    (Survives(hasStatus, s, life[0]) && AllSurvive(hasStatus, FStore(life[0].loaded, life[0].files), life[1..]))
  }

  lemma StretchMirrors(hasStatus: bool, s: FStore, p: Stretch)
    requires Mirror(hasStatus, s) && Inv(s.mem) && Plain(s.mem.items) && PossibleStretch(hasStatus, s, p)
    ensures Survives(hasStatus, s, p)
    ensures Mirror(hasStatus, FStore(p.loaded, p.files)) && Plain(p.loaded.items) && Inv(p.loaded)
  {
    hide Inv, FApply, FRun, PossibleIo, FStates, Goal, Mirrors, StripAll, Contents, Readable, Plain, Stripped,
         KeepsIdentity, ReadBack, WellBehaved, AllKeepIdentity;
    var t := FRun(hasStatus, s, p.calls);
    MirrorRun(hasStatus, s, p.calls, p.cut.op, p.cut.io);
    IdentityRun(hasStatus, s, p.calls);
    GoalPlain(hasStatus, t, p.cut.op);
    if Mirrors(p.files, StripAll(hasStatus, t.mem.items)) {
      ReloadMirrors(hasStatus, p.files, StripAll(hasStatus, t.mem.items), p.loaded.items, p.now);
    } else {
      ReloadMirrors(hasStatus, p.files, Goal(hasStatus, t, p.cut.op), p.loaded.items, p.now);
    }
  }

  // Over a life with any number of crashes and restarts: every time what is loaded is the stripped
  // state before or after the interrupted call, and in the end the files mirror the items still.
  lemma {:induction false} LifeMirrors(hasStatus: bool, s: FStore, life: seq<Stretch>)
    requires Mirror(hasStatus, s) && Inv(s.mem) && Plain(s.mem.items) && PossibleLife(hasStatus, s, life)
    ensures AllSurvive(hasStatus, s, life)
    ensures life != [] ==> var p := life[|life| - 1]; Mirror(hasStatus, FStore(p.loaded, p.files))
    decreases |life|
  {
    hide Inv, Mirror, Plain, Survives, PossibleStretch;
    if life != [] {
      var p := life[0];
      StretchMirrors(hasStatus, s, p);
      LifeMirrors(hasStatus, FStore(p.loaded, p.files), life[1..]);
    }
  }

  // The excluded case: an update refused for its version has already replaced the file.
  lemma ConflictLosesMirror(hasStatus: bool, s: FStore, key: string, io: Io)
    requires Mirror(hasStatus, s) && PossibleIo(s.files, key, io) && io.write == Written
    requires key in s.mem.items && s.mem.items[key].version != Unset
    ensures var edit := (r: Resource) => Some(r.(version := Unset, spec := r.spec + "x"));
      && FRefusal(s, Update(key, edit), io) == Some(Conflict)
      && FApply(hasStatus, s, Update(key, edit), io).mem == s.mem
      && !Mirror(hasStatus, FApply(hasStatus, s, Update(key, edit), io))
  {
    var edit := (r: Resource) => Some(r.(version := Unset, spec := r.spec + "x"));
    assert Strip(hasStatus, edit(s.mem.items[key]).value) != Strip(hasStatus, s.mem.items[key]) by {
      assert |edit(s.mem.items[key]).value.spec| != |s.mem.items[key].spec|;
    }
    MirrorKept(hasStatus, s, Update(key, edit), io);
  }
}
