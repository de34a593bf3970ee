/** The drain, shutdown, restart and uncordon protocol between the server device and a
    node's own device, as a transition system over one Node object.

    Every committed write of the Node is a new version; a resource version is the index of
    a version. Reads may return any version, an update is a compare-and-swap on the index
    it was read at. Every step is total: a step that is not possible leaves the state
    alone, so each sequence of steps is a run and every interleaving is covered. */
module NodeDrain {

  // The annotations of the Node; Foreign stands for those the protocol does not use.
  datatype Key = Drain | Shutdown | Uncordon | Restarted | Terminated | Foreign(name: string)

  // Annotation values; Empty is what a lookup of a missing key yields.
  datatype Value = Empty | True | False | Boot(id: nat) | Text(text: string)

  type Annotations = map<Key, Value>

  function At(a: Annotations, k: Key): Value {
    if k in a then a[k] else Empty
  }

  // The five annotations of the protocol.
  datatype Marks = Marks(drain: Value, shutdown: Value, uncordon: Value, restarted: Value, terminated: Value)

  function MarksOf(a: Annotations): Marks {
    Marks(At(a, Drain), At(a, Shutdown), At(a, Uncordon), At(a, Restarted), At(a, Terminated))
  }

  datatype Device = ServerDevice | OwnDevice

  // Where a device stands within one Reconcile; v is the version its Node object carries.
  datatype Pc =
    | Idle
    | Fetched(v: nat)
    | Marked(v: nat)
    | Drained(v: nat)
    | Uncordoned(v: nat)
    | Terminating

  // What an API call does: it happens and is acknowledged, it does not happen,
  // or it happens but the caller sees an error.
  datatype Outcome = Acknowledged | Failed | Unacknowledged

  datatype Step =
    | RequestDrain
    | Annotate(name: string, value: Value)
    | NewEpoch
    | ServerRestart
    | Get(who: Device, back: nat)
    | Act(who: Device, outcome: Outcome, bump: bool)

  // What was known when Uncordon was called; terminated is the mark of the newest version.
  datatype UncordonCall = UncordonCall(epoch: nat, marks: seq<nat>, terminated: Value)

  datatype State = State(
    colocated: bool,               // the node is the server device itself
    versions: seq<Annotations>,
    epoch: nat,                    // rebootID of the node's own device
    server: Pc,
    own: Pc,
    lastRead: nat,                 // newest version the server device has been served
    drains: nat,                   // successful DrainNode calls
    marks: seq<nat>,               // epochs of the committed termination marks
    shutdowns: seq<nat>,           // epochs of the Shutdown calls
    uncordons: seq<UncordonCall>)
  {
    function Current(): Annotations
      requires |versions| > 0
    {
      versions[|versions| - 1]
    }

    function Now(): Marks
      requires |versions| > 0
    {
      MarksOf(Current())
    }

    function PcOf(who: Device): Pc {
      if who == ServerDevice then server else own
    }

    function At(who: Device, pc: Pc): State {
      if who == ServerDevice then this.(server := pc) else this.(own := pc)
    }

    // The device that runs the branch reserved for the node itself.
    function Local(): Device {
      if colocated then ServerDevice else OwnDevice
    }

    predicate IsServer(who: Device) { who == ServerDevice }

    predicate IsLocal(who: Device) { who == Local() }

    // A colocated system has a single reconciler.
    predicate Exists(who: Device) { colocated ==> who == ServerDevice }
  }

  function Initial(colocated: bool, a: Annotations, epoch: nat): State {
    State(colocated, [a], epoch, Idle, Idle, 0, 0, [], [], [])
  }

  // ---------------------------------------------------------------- annotation edits

  function MarkEdit(a: Annotations): Annotations {
    a[Uncordon := True][Restarted := False]
  }

  function RequestShutdownEdit(a: Annotations): Annotations {
    (a - {Drain})[Shutdown := True]
  }

  function UncordonEdit(a: Annotations): Annotations {
    a - {Uncordon}
  }

  function TerminateEdit(a: Annotations, epoch: nat): Annotations {
    (a - {Shutdown})[Terminated := Boot(epoch)]
  }

  function RestartEdit(a: Annotations): Annotations {
    (a - {Terminated})[Restarted := True]
  }

  lemma EditMarks(a: Annotations, epoch: nat, name: string, value: Value)
    ensures MarksOf(a[Drain := True]) == MarksOf(a).(drain := True)
    ensures MarksOf(a[Foreign(name) := value]) == MarksOf(a)
    ensures MarksOf(MarkEdit(a)) == MarksOf(a).(uncordon := True, restarted := False)
    ensures MarksOf(RequestShutdownEdit(a)) == MarksOf(a).(drain := Empty, shutdown := True)
    ensures MarksOf(UncordonEdit(a)) == MarksOf(a).(uncordon := Empty)
    ensures MarksOf(TerminateEdit(a, epoch)) == MarksOf(a).(shutdown := Empty, terminated := Boot(epoch))
    ensures MarksOf(RestartEdit(a)) == MarksOf(a).(terminated := Empty, restarted := True)
  {
  }

  // ---------------------------------------------------------------- branch conditions

  predicate WantsDrain(m: Marks) { m.drain == True }

  predicate WantsUncordon(m: Marks) {
    !WantsDrain(m) && m.uncordon == True && m.restarted == True && m.terminated == Empty
  }

  predicate WantsTerminate(m: Marks, epoch: nat) {
    m.terminated != Boot(epoch) && m.shutdown == True
  }

  predicate WantsRestart(m: Marks, epoch: nat) {
    m.terminated != Boot(epoch) && m.shutdown != True && m.restarted == False && m.terminated != Empty
  }

  // ---------------------------------------------------------------- steps

  predicate Commits(s: State, v: nat, outcome: Outcome) {
    outcome != Failed && v + 1 == |s.versions|
  }

  // A write of a at the current version. An update that changes nothing may keep the version.
  function Commit(s: State, a: Annotations, bump: bool): State
    requires |s.versions| > 0
  {
    if a == s.Current() && !bump then s else s.(versions := s.versions + [a])
  }

  // The version index the caller's object carries after that write.
  function CommittedVersion(s: State, a: Annotations, bump: bool): nat
    requires |s.versions| > 0
  {
    |Commit(s, a, bump).versions| - 1
  }

  // An update by who of the object it read as version v; pc is where an acknowledged one leads.
  function Update(s: State, who: Device, v: nat, a: Annotations, outcome: Outcome, bump: bool, pc: Pc): State
    requires |s.versions| > 0
  {
    if Commits(s, v, outcome) then
      Commit(s, a, bump).At(who, if outcome == Acknowledged then pc else Idle)
    else
      s.At(who, Idle)
  }

  function ActMark(s: State, who: Device, v: nat, outcome: Outcome, bump: bool): State
    requires v < |s.versions|
  {
    var a := MarkEdit(s.versions[v]);
    Update(s, who, v, a, outcome, bump, Marked(CommittedVersion(s, a, bump)))
  }

  function ActUncordon(s: State, who: Device, v: nat, outcome: Outcome): State
    requires |s.versions| > 0
  {
    var s' := s.(uncordons := s.uncordons + [UncordonCall(s.epoch, s.marks, s.Now().terminated)]);
    s'.At(who, if outcome == Acknowledged then Uncordoned(v) else Idle)
  }

  function ActTerminate(s: State, who: Device, v: nat, outcome: Outcome, bump: bool): State
    requires v < |s.versions|
  {
    var s' := if Commits(s, v, outcome) then s.(marks := s.marks + [s.epoch]) else s;
    Update(s', who, v, TerminateEdit(s.versions[v], s.epoch), outcome, bump, Terminating)
  }

  function ActRestart(s: State, who: Device, v: nat, outcome: Outcome, bump: bool): State
    requires v < |s.versions|
  {
    Update(s, who, v, RestartEdit(s.versions[v]), outcome, bump, Idle)
  }

  function ActFetched(s: State, who: Device, v: nat, outcome: Outcome, bump: bool): State
    requires v < |s.versions|
  {
    var a := MarksOf(s.versions[v]);
    if s.IsServer(who) && WantsDrain(a) then ActMark(s, who, v, outcome, bump)
    else if s.IsServer(who) && WantsUncordon(a) then ActUncordon(s, who, v, outcome)
    else if s.IsLocal(who) && WantsTerminate(a, s.epoch) then ActTerminate(s, who, v, outcome, bump)
    else if s.IsLocal(who) && WantsRestart(a, s.epoch) then ActRestart(s, who, v, outcome, bump)
    else s.At(who, Idle)
  }

  function ActNext(s: State, who: Device, outcome: Outcome, bump: bool): State
    requires |s.versions| > 0
  {
    match s.PcOf(who)
    case Idle => s
    case Fetched(v) =>
      if v < |s.versions| then ActFetched(s, who, v, outcome, bump) else s
    case Marked(v) =>
      if outcome == Acknowledged then s.(drains := s.drains + 1).At(who, Drained(v)) else s.At(who, Idle)
    case Drained(v) =>
      if v < |s.versions| then
        Update(s, who, v, RequestShutdownEdit(s.versions[v]), outcome, bump, Idle)
      else s
    case Uncordoned(v) =>
      if v < |s.versions| then
        Update(s, who, v, UncordonEdit(s.versions[v]), outcome, bump, Idle)
      else s
    case Terminating =>
      s.(shutdowns := s.shutdowns + [s.epoch]).At(who, Idle)
  }

  function Next(s: State, step: Step): State {
    if |s.versions| == 0 then s else
    match step
    case RequestDrain =>
      s.(versions := s.versions + [s.Current()[Drain := True]])
    case Annotate(name, value) =>
      s.(versions := s.versions + [s.Current()[Foreign(name) := value]])
    case NewEpoch =>
      var s' := s.(epoch := s.epoch + 1, own := Idle);
      if s.colocated then s'.(server := Idle) else s'
    case ServerRestart =>
      if s.colocated then s else s.(server := Idle)
    case Get(who, back) =>
      if s.Exists(who) && s.PcOf(who) == Idle && back < |s.versions| then
        var v := |s.versions| - 1 - back;
        var s' := s.At(who, Fetched(v));
        if who == ServerDevice then s'.(lastRead := v) else s'
      else s
    case Act(who, outcome, bump) =>
      if s.Exists(who) then ActNext(s, who, outcome, bump) else s
  }

  function Run(s: State, steps: seq<Step>): State
    decreases |steps|
  {
    if steps == [] then s else Run(Next(s, steps[0]), steps[1..])
  }

  lemma {:induction false} RunAppend(s: State, xs: seq<Step>, ys: seq<Step>)
    ensures Run(s, xs + ys) == Run(Run(s, xs), ys)
    decreases |xs|
  {
    if xs == [] {
      assert xs + ys == ys;
    } else {
      assert (xs + ys)[0] == xs[0] && (xs + ys)[1..] == xs[1..] + ys;
      RunAppend(Next(s, xs[0]), xs[1..], ys);
    }
  }

  // ---------------------------------------------------------------- safety invariant

  // What every version of the Node satisfies.
  predicate WellMarked(m: Marks) {
    && m.drain in {Empty, True} && m.shutdown in {Empty, True} && m.uncordon in {Empty, True}
    && m.restarted in {Empty, True, False} && (m.terminated.Empty? || m.terminated.Boot?)
    && (m.uncordon == True ==> m.restarted != Empty)
    && (m.shutdown == True || m.terminated != Empty ==> m.uncordon == True && m.restarted == False)
    && (m.uncordon == True && m.restarted == False
        ==> m.drain == True || m.shutdown == True || m.terminated != Empty)
  }

  predicate NoDuplicates(xs: seq<nat>) {
    forall i, j :: 0 <= i < j < |xs| ==> xs[i] != xs[j]
  }

  predicate PcInRange(s: State, pc: Pc) {
    match pc
    case Idle => true
    case Terminating => true
    case Fetched(v) => v < |s.versions|
    case Uncordoned(v) => v < |s.versions| && WantsUncordon(MarksOf(s.versions[v]))
    case Marked(v) => v < |s.versions| && DrainMarked(MarksOf(s.versions[v]))
    case Drained(v) => v < |s.versions| && DrainMarked(MarksOf(s.versions[v]))
  }

  predicate DrainMarked(m: Marks) {
    m.drain == True && m.uncordon == True && m.restarted == False
  }

  predicate Shape(s: State) {
    && |s.versions| > 0
    && (forall i :: 0 <= i < |s.versions| ==> WellMarked(MarksOf(s.versions[i])))
    && PcInRange(s, s.server) && PcInRange(s, s.own)
    && (s.own.Idle? || s.own.Fetched? || s.own.Terminating?)
    && (s.colocated ==> s.own.Idle?)
    && (s.server.Terminating? ==> s.colocated)
    && s.lastRead < |s.versions|
  }

  function Count(b: bool): nat { if b then 1 else 0 }

  // Shutdown calls, and everything that can still become one without another DrainNode.
  function Charge(s: State): nat
    requires |s.versions| > 0
  {
    |s.shutdowns| + Count(s.PcOf(s.Local()).Terminating?)
    + Count(s.Now().shutdown == True) + Count(s.server.Drained?)
  }

  predicate ShutdownOnce(s: State)
    requires |s.versions| > 0
  {
    && NoDuplicates(s.shutdowns)
    && (forall i :: 0 <= i < |s.shutdowns| ==> s.shutdowns[i] <= s.epoch)
    && (s.PcOf(s.Local()).Terminating? || s.epoch in s.shutdowns ==> s.Now().terminated == Boot(s.epoch))
    && (s.PcOf(s.Local()).Terminating? ==> s.epoch !in s.shutdowns)
  }

  predicate MarksKnown(s: State)
    requires |s.versions| > 0
  {
    && (forall i :: 0 <= i < |s.marks| ==> s.marks[i] <= s.epoch)
    && (s.Now().terminated.Boot? ==>
          |s.marks| > 0 && s.Now().terminated == Boot(s.marks[|s.marks| - 1]))
  }

  predicate Inv(s: State) {
    Shape(s) && Charge(s) <= s.drains && ShutdownOnce(s) && MarksKnown(s)
  }

  // A Node on which the protocol has not been used yet.
  predicate Unused(m: Marks) {
    && m.drain == Empty && m.shutdown == Empty && m.uncordon == Empty && m.terminated == Empty
    && m.restarted in {Empty, True, False}
  }

  lemma InitialInv(colocated: bool, a: Annotations, epoch: nat)
    requires Unused(MarksOf(a))
    ensures Inv(Initial(colocated, a, epoch))
  {
  }

  lemma CommitShape(s: State, who: Device, a: Annotations, bump: bool, pc: Pc)
    requires Shape(s) && WellMarked(MarksOf(a)) && s.Exists(who)
    requires pc.Idle? || (pc.Terminating? && who == s.Local())
          || (pc == Marked(CommittedVersion(s, a, bump)) && who == ServerDevice && DrainMarked(MarksOf(a)))
    ensures Shape(Commit(s, a, bump).At(who, pc))
    ensures Commit(s, a, bump).Current() == a
  {
    hide WellMarked, MarksOf, DrainMarked, WantsUncordon;
  }

  // What the ledger predicates need to know about a step from s to t.
  lemma LedgerInv(s: State, t: State)
    requires Inv(s) && Shape(t) && t.epoch == s.epoch && t.colocated == s.colocated
    requires t.shutdowns == s.shutdowns && t.drains == s.drains
    requires t.marks == s.marks || t.marks == s.marks + [s.epoch]
    requires Charge(t) <= Charge(s)
    requires t.PcOf(t.Local()).Terminating? ==>
      s.PcOf(t.Local()).Terminating? || s.Now().terminated != Boot(s.epoch)
    requires (t.Now().terminated == s.Now().terminated && t.marks == s.marks)
          || (t.Now().terminated == Boot(s.epoch) && t.marks == s.marks + [s.epoch])
          || (t.Now().terminated == Empty && s.Now().terminated != Boot(s.epoch) && t.marks == s.marks)
    requires t.PcOf(t.Local()).Terminating? ==> t.Now().terminated == Boot(s.epoch)
    ensures Inv(t)
  {
    hide WellMarked, MarksOf, Shape, Charge;
  }

  // A failed or refused call.
  lemma GiveUpInv(s: State, who: Device)
    requires Inv(s) && s.Exists(who)
    ensures Inv(s.At(who, Idle))
  {
    hide WellMarked, MarksOf;
  }

  // A write that leaves the termination mark and the shutdown request alone.
  lemma NeutralWriteInv(s: State, who: Device, a: Annotations, bump: bool, pc: Pc)
    requires Inv(s) && s.Exists(who) && !s.PcOf(who).Drained? && !s.PcOf(who).Terminating?
    requires var m := MarksOf(a);
      && WellMarked(m) && m.shutdown == s.Now().shutdown && m.terminated == s.Now().terminated
      && (pc.Idle? || (pc == Marked(CommittedVersion(s, a, bump)) && who == ServerDevice && DrainMarked(m)))
    ensures Inv(Commit(s, a, bump).At(who, pc))
  {
    CommitShape(s, who, a, bump, pc);
    LedgerInv(s, Commit(s, a, bump).At(who, pc)) by { hide WellMarked, Shape, MarksOf, NoDuplicates; }
  }

  lemma MarkInv(s: State, v: nat, outcome: Outcome, bump: bool)
    requires Inv(s) && s.server == Fetched(v) && WantsDrain(MarksOf(s.versions[v]))
    ensures Inv(ActMark(s, ServerDevice, v, outcome, bump))
  {
    GiveUpInv(s, ServerDevice);
    if Commits(s, v, outcome) {
      var a := MarkEdit(s.versions[v]);
      EditMarks(s.versions[v], s.epoch, "", Empty);
      NeutralWriteInv(s, ServerDevice, a, bump,
        if outcome == Acknowledged then Marked(CommittedVersion(s, a, bump)) else Idle);
    }
  }

  lemma RequestShutdownCommits(s: State, v: nat, a: Annotations, bump: bool)
    requires Inv(s) && s.server == Drained(v) && v + 1 == |s.versions| && a == RequestShutdownEdit(s.Current())
    ensures Inv(Commit(s, a, bump).At(ServerDevice, Idle))
  {
    EditMarks(s.Current(), s.epoch, "", Empty);
    CommitShape(s, ServerDevice, a, bump, Idle);
    LedgerInv(s, Commit(s, a, bump).At(ServerDevice, Idle)) by { hide WellMarked, Shape, MarksOf, RequestShutdownEdit; }
  }

  lemma RequestShutdownInv(s: State, v: nat, outcome: Outcome, bump: bool)
    requires Inv(s) && s.server == Drained(v)
    ensures Inv(ActNext(s, ServerDevice, outcome, bump))
  {
    assert Shape(s);
    hide Inv, WellMarked, MarksOf, RequestShutdownEdit, Commit, ActFetched;
    GiveUpInv(s, ServerDevice);
    if Commits(s, v, outcome) {
      RequestShutdownCommits(s, v, RequestShutdownEdit(s.Current()), bump);
    }
  }

  lemma UncordonInv(s: State, v: nat, outcome: Outcome, bump: bool)
    requires Inv(s) && s.server == Uncordoned(v)
    ensures Inv(ActNext(s, ServerDevice, outcome, bump))
  {
    GiveUpInv(s, ServerDevice);
    if Commits(s, v, outcome) {
      EditMarks(s.versions[v], s.epoch, "", Empty);
      NeutralWriteInv(s, ServerDevice, UncordonEdit(s.versions[v]), bump, Idle);
    }
  }

  lemma TerminateShape(s: State, v: nat, bump: bool, pc: Pc)
    requires Inv(s) && v + 1 == |s.versions| && WantsTerminate(s.Now(), s.epoch) && pc in {Terminating, Idle}
    ensures var a := TerminateEdit(s.Current(), s.epoch);
      var t := Commit(s.(marks := s.marks + [s.epoch]), a, bump).At(s.Local(), pc);
      Shape(t) && t.Current() == a
  {
    var a := TerminateEdit(s.Current(), s.epoch);
    EditMarks(s.Current(), s.epoch, "", Empty);
    CommitShape(s.(marks := s.marks + [s.epoch]), s.Local(), a, bump, pc);
  }

  lemma TerminateInv(s: State, v: nat, outcome: Outcome, bump: bool)
    requires Inv(s) && s.PcOf(s.Local()) == Fetched(v) && WantsTerminate(MarksOf(s.versions[v]), s.epoch)
    ensures Inv(ActTerminate(s, s.Local(), v, outcome, bump))
  {
    GiveUpInv(s, s.Local());
    if Commits(s, v, outcome) {
      hide WellMarked, MarksOf, TerminateEdit;
      TerminateShape(s, v, bump, if outcome == Acknowledged then Terminating else Idle);
      EditMarks(s.Current(), s.epoch, "", Empty);
      LedgerInv(s, ActTerminate(s, s.Local(), v, outcome, bump)) by { hide Shape; }
    }
  }

  lemma RestartCommits(s: State, v: nat, a: Annotations, bump: bool)
    requires Inv(s) && s.PcOf(s.Local()) == Fetched(v) && v + 1 == |s.versions|
    requires WantsRestart(s.Now(), s.epoch) && a == RestartEdit(s.Current())
    ensures Inv(Commit(s, a, bump).At(s.Local(), Idle))
  {
    EditMarks(s.Current(), s.epoch, "", Empty);
    CommitShape(s, s.Local(), a, bump, Idle);
    LedgerInv(s, Commit(s, a, bump).At(s.Local(), Idle)) by { hide WellMarked, Shape, MarksOf, RestartEdit; }
  }

  lemma RestartInv(s: State, v: nat, outcome: Outcome, bump: bool)
    requires Inv(s) && s.PcOf(s.Local()) == Fetched(v) && WantsRestart(MarksOf(s.versions[v]), s.epoch)
    ensures Inv(ActRestart(s, s.Local(), v, outcome, bump))
  {
    assert Shape(s);
    hide Inv, WellMarked, MarksOf, RestartEdit, Commit;
    GiveUpInv(s, s.Local());
    if Commits(s, v, outcome) {
      RestartCommits(s, v, RestartEdit(s.Current()), bump);
    }
  }

  lemma FetchedInv(s: State, who: Device, v: nat, outcome: Outcome, bump: bool)
    requires Inv(s) && s.Exists(who) && s.PcOf(who) == Fetched(v)
    ensures Inv(ActFetched(s, who, v, outcome, bump))
  {
    hide WellMarked, ActMark, ActTerminate, ActRestart, MarksOf;
    var m := MarksOf(s.versions[v]);
    if s.IsServer(who) && WantsDrain(m) {
      MarkInv(s, v, outcome, bump);
    } else if s.IsServer(who) && WantsUncordon(m) {
    } else if s.IsLocal(who) && WantsTerminate(m, s.epoch) {
      TerminateInv(s, v, outcome, bump);
    } else if s.IsLocal(who) && WantsRestart(m, s.epoch) {
      RestartInv(s, v, outcome, bump);
    } else {
      GiveUpInv(s, who);
    }
  }

  lemma DrainedInv(s: State, v: nat, outcome: Outcome, bump: bool)
    requires Inv(s) && s.server == Marked(v)
    ensures Inv(ActNext(s, ServerDevice, outcome, bump))
  {
    hide WellMarked, MarksOf, NoDuplicates;
  }

  lemma ShutdownInv(s: State, outcome: Outcome, bump: bool)
    requires Inv(s) && s.PcOf(s.Local()) == Terminating
    ensures Inv(ActNext(s, s.Local(), outcome, bump))
  {
    hide WellMarked, MarksOf;
  }

  lemma ActInv(s: State, who: Device, outcome: Outcome, bump: bool)
    requires Inv(s) && s.Exists(who)
    ensures Inv(ActNext(s, who, outcome, bump))
  {
    assert Shape(s);
    hide Inv, WellMarked, MarksOf;
    match s.PcOf(who)
    case Idle =>
    case Fetched(v) => FetchedInv(s, who, v, outcome, bump);
    case Drained(v) => RequestShutdownInv(s, v, outcome, bump);
    case Uncordoned(v) => UncordonInv(s, v, outcome, bump);
    case Marked(v) => DrainedInv(s, v, outcome, bump);
    case Terminating => ShutdownInv(s, outcome, bump);
  }

  lemma NewVersionInv(s: State, a: Annotations)
    requires Inv(s) && WellMarked(MarksOf(a))
    requires MarksOf(a).(drain := Empty) == s.Now().(drain := Empty)
    ensures Inv(s.(versions := s.versions + [a]))
  {
    hide WellMarked, MarksOf;
  }

  // Starts and reads change no version.
  lemma PlaceInv(s: State, step: Step)
    requires Inv(s) && (step.NewEpoch? || step.ServerRestart? || step.Get?)
    ensures Inv(Next(s, step))
  {
    hide WellMarked, MarksOf;
  }

  // Every step of either device, of the user and of any other writer keeps the invariant.
  lemma NextInv(s: State, step: Step)
    requires Inv(s)
    ensures Inv(Next(s, step))
  {
    assert Shape(s);
    hide Inv, Shape, WellMarked, MarksOf;
    match step
    case RequestDrain =>
      EditMarks(s.Current(), s.epoch, "", Empty);
      NewVersionInv(s, s.Current()[Drain := True]);
    case Annotate(name, value) =>
      EditMarks(s.Current(), s.epoch, name, value);
      NewVersionInv(s, s.Current()[Foreign(name) := value]);
    case NewEpoch => PlaceInv(s, step);
    case ServerRestart => PlaceInv(s, step);
    case Get(who, back) => PlaceInv(s, step);
    case Act(who, outcome, bump) =>
      hide ActNext;
      if s.Exists(who) { ActInv(s, who, outcome, bump); }
  }

  lemma {:induction false} RunInv(s: State, steps: seq<Step>)
    requires Inv(s)
    ensures Inv(Run(s, steps))
    decreases |steps|
  {
    if steps != [] {
      NextInv(s, steps[0]);
      RunInv(Next(s, steps[0]), steps[1..]);
    }
  }

  // Safety over every interleaving, with stale reads, lost acknowledgements and restarts.
  lemma DrainSafety(colocated: bool, a: Annotations, epoch: nat, steps: seq<Step>)
    requires Unused(MarksOf(a))
    ensures var s := Run(Initial(colocated, a, epoch), steps);
      && (forall i | 0 <= i < |s.versions| :: var m := MarksOf(s.versions[i]);
            && (m.shutdown == True || m.terminated != Empty ==> m.uncordon == True && m.restarted == False)
            && (m.uncordon == True && m.restarted == False
                ==> m.drain == True || m.shutdown == True || m.terminated != Empty))
      && NoDuplicates(s.shutdowns)
      && |s.shutdowns| <= s.drains
  {
    InitialInv(colocated, a, epoch);
    RunInv(Initial(colocated, a, epoch), steps);
    hide MarksOf, Run;
  }
}
