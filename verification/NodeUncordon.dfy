/** When a node is made schedulable again: exactly which Uncordon calls come after it was started
    anew, and that all do if the server device's reads never go backwards. */
module NodeUncordon {
  import opened NodeDrain
  import opened NodeDrainProgress

  // ---------------------------------------------------------------- uncordon safety

  // At the time of the call the node had been started again since its last termination mark.
  predicate AfterRestart(u: UncordonCall) {
    |u.marks| > 0 && u.marks[|u.marks| - 1] < u.epoch
  }

  // In every run: a call needs a version that asks for it, hence a restart and a termination mark
  // before; and the newest mark is of the current epoch exactly while the Node says so.
  predicate CallInv(s: State)
    requires Shape(s)
  {
    && (|s.marks| > 0 && s.marks[|s.marks| - 1] == s.epoch ==> s.Now().terminated == Boot(s.epoch))
    && (forall i :: 0 <= i < |s.versions| && Returned(MarksOf(s.versions[i])) ==> |s.marks| > 0)
    && (forall i :: 0 <= i < |s.uncordons| ==> Exact(s.uncordons[i]))
  }

  predicate Returned(m: Marks) { m.uncordon == True && m.restarted == True }

  predicate Exact(u: UncordonCall) {
    AfterRestart(u) <==> u.terminated != Boot(u.epoch)
  }

  // What a step other than a call needs to show.
  lemma CallInvKept(s: State, t: State)
    requires Inv(s) && CallInv(s) && Shape(t) && t.uncordons == s.uncordons && s.marks <= t.marks
    requires s.versions <= t.versions && |t.versions| <= |s.versions| + 1
    requires Returned(t.Now()) ==> |t.marks| > 0
    requires |t.marks| > 0 && t.marks[|t.marks| - 1] == t.epoch ==> t.Now().terminated == Boot(t.epoch)
    ensures CallInv(t)
  {
    hide MarksOf, WellMarked, Inv, Exact, Returned;
    forall i | 0 <= i < |t.versions| && Returned(MarksOf(t.versions[i])) ensures |t.marks| > 0 {
      if i < |s.versions| {
        assert t.versions[i] == s.versions[i];
      }
    }
  }

  lemma AppendCalls(s: State, a: Annotations)
    requires Inv(s) && CallInv(s) && Shape(s.(versions := s.versions + [a]))
    requires MarksOf(a).(drain := Empty) == s.Now().(drain := Empty)
    ensures CallInv(s.(versions := s.versions + [a]))
  {
    CallInvKept(s, s.(versions := s.versions + [a])) by { hide MarksOf, WellMarked, Inv, Exact; }
  }

  // A write by who of the version it read; m are the marks written.
  lemma WriteCalls(s: State, who: Device, v: nat, a: Annotations, outcome: Outcome, bump: bool, pc: Pc)
    requires Inv(s) && CallInv(s) && v < |s.versions| && Shape(Update(s, who, v, a, outcome, bump, pc))
    requires var m := MarksOf(a); v + 1 == |s.versions| ==>
      && (Returned(m) ==> |s.marks| > 0)
      && (|s.marks| > 0 && s.marks[|s.marks| - 1] == s.epoch ==> m.terminated == Boot(s.epoch))
    ensures CallInv(Update(s, who, v, a, outcome, bump, pc))
  {
    hide MarksOf, WellMarked, Inv, Exact, Returned, Shape;
    CallInvKept(s, Update(s, who, v, a, outcome, bump, pc)) by { hide CallInv; }
  }

  lemma TerminateCommits(s: State, who: Device, a: Annotations, bump: bool, pc: Pc)
    requires Inv(s) && CallInv(s) && a == TerminateEdit(s.Current(), s.epoch)
    requires Shape(Commit(s.(marks := s.marks + [s.epoch]), a, bump).At(who, pc))
    ensures CallInv(Commit(s.(marks := s.marks + [s.epoch]), a, bump).At(who, pc))
  {
    EditMarks(s.Current(), s.epoch, "", Empty);
    hide MarksOf, WellMarked, Inv, CallInv, Exact, Returned, TerminateEdit, Shape;
    CallInvKept(s, Commit(s.(marks := s.marks + [s.epoch]), a, bump).At(who, pc));
  }

  lemma TerminateCalls(s: State, who: Device, v: nat, outcome: Outcome, bump: bool)
    requires Inv(s) && CallInv(s) && v < |s.versions| && WantsTerminate(MarksOf(s.versions[v]), s.epoch)
    requires Shape(ActTerminate(s, who, v, outcome, bump))
    ensures CallInv(ActTerminate(s, who, v, outcome, bump))
  {
    if Commits(s, v, outcome) {
      hide MarksOf, WellMarked, Inv, CallInv, TerminateEdit, Shape, Commit;
      TerminateCommits(s, who, TerminateEdit(s.Current(), s.epoch), bump,
                       if outcome == Acknowledged then Terminating else Idle);
    } else {
      hide MarksOf, WellMarked, Inv, Exact, Returned, TerminateEdit, Shape;
      CallInvKept(s, ActTerminate(s, who, v, outcome, bump)) by { hide CallInv; }
    }
  }

  lemma RestartCalls(s: State, who: Device, v: nat, outcome: Outcome, bump: bool)
    requires Inv(s) && CallInv(s) && v < |s.versions| && WantsRestart(MarksOf(s.versions[v]), s.epoch)
    requires Shape(ActRestart(s, who, v, outcome, bump))
    ensures CallInv(ActRestart(s, who, v, outcome, bump))
  {
    assert WellMarked(MarksOf(s.versions[v])) && MarksKnown(s);
    EditMarks(s.versions[v], s.epoch, "", Empty);
    hide MarksOf, Inv, Exact, RestartEdit, Shape, Update;
    WriteCalls(s, who, v, RestartEdit(s.versions[v]), outcome, bump, Idle);
  }

  lemma OwnWriteCalls(s: State, outcome: Outcome, bump: bool)
    requires Inv(s) && CallInv(s) && (s.server.Drained? || s.server.Uncordoned?)
    requires Shape(ActNext(s, ServerDevice, outcome, bump))
    ensures CallInv(ActNext(s, ServerDevice, outcome, bump))
  {
    var v := s.server.v;
    assert v < |s.versions|;
    EditMarks(s.versions[v], s.epoch, "", Empty);
    hide MarksOf, WellMarked, Inv, Exact, RequestShutdownEdit, UncordonEdit, Shape, Update;
    if s.server.Drained? {
      WriteCalls(s, ServerDevice, v, RequestShutdownEdit(s.versions[v]), outcome, bump, Idle);
    } else {
      WriteCalls(s, ServerDevice, v, UncordonEdit(s.versions[v]), outcome, bump, Idle);
    }
  }

  lemma MarkCalls(s: State, v: nat, outcome: Outcome, bump: bool)
    requires Inv(s) && CallInv(s) && v < |s.versions| && Shape(ActMark(s, ServerDevice, v, outcome, bump))
    ensures CallInv(ActMark(s, ServerDevice, v, outcome, bump))
  {
    var a := MarkEdit(s.versions[v]);
    EditMarks(s.versions[v], s.epoch, "", Empty);
    hide MarksOf, WellMarked, Inv, Exact, MarkEdit, Shape, Update;
    WriteCalls(s, ServerDevice, v, a, outcome, bump, Marked(CommittedVersion(s, a, bump)));
  }

  // Where Uncordon is called, whatever version the server device was served: the node was started
  // again since its last termination mark exactly if the Node is not marked by the current epoch.
  lemma CallIsExact(s: State, v: nat)
    requires Inv(s) && CallInv(s) && s.server == Fetched(v) && WantsUncordon(MarksOf(s.versions[v]))
    ensures Exact(UncordonCall(s.epoch, s.marks, s.Now().terminated))
  {
    assert MarksKnown(s) && v < |s.versions| && Returned(MarksOf(s.versions[v]));
    hide MarksOf, WellMarked, Inv;
  }

  lemma CallCalls(s: State, v: nat, outcome: Outcome)
    requires Inv(s) && CallInv(s) && s.server == Fetched(v) && WantsUncordon(MarksOf(s.versions[v]))
    requires Shape(ActUncordon(s, ServerDevice, v, outcome))
    ensures CallInv(ActUncordon(s, ServerDevice, v, outcome))
  {
    CallIsExact(s, v);
    hide MarksOf, WellMarked, Inv, Exact, Returned, Shape;
  }

  lemma ActCalls(s: State, who: Device, outcome: Outcome, bump: bool)
    requires Inv(s) && CallInv(s) && s.Exists(who) && Shape(ActNext(s, who, outcome, bump))
    ensures CallInv(ActNext(s, who, outcome, bump))
  {
    assert Shape(s);
    hide Inv, Shape, MarksOf, WellMarked, Exact, Returned, ActMark, ActUncordon, ActTerminate, ActRestart;
    match s.PcOf(who)
    case Fetched(v) =>
      assert v < |s.versions| by { PcKnown(s, who); }
      var m := MarksOf(s.versions[v]);
      if s.IsServer(who) && WantsDrain(m) {
        MarkCalls(s, v, outcome, bump);
      } else if s.IsServer(who) && WantsUncordon(m) {
        CallCalls(s, v, outcome);
      } else if s.IsLocal(who) && WantsTerminate(m, s.epoch) {
        TerminateCalls(s, who, v, outcome, bump);
      } else if s.IsLocal(who) && WantsRestart(m, s.epoch) {
        RestartCalls(s, who, v, outcome, bump);
      }
    case Drained(v) => PcKnown(s, who); OwnWriteCalls(s, outcome, bump);
    case Uncordoned(v) => PcKnown(s, who); OwnWriteCalls(s, outcome, bump);
    case _ =>
  }

  lemma PcKnown(s: State, who: Device)
    requires Shape(s)
    ensures s.PcOf(who).Fetched? ==> s.PcOf(who).v < |s.versions|
    ensures s.PcOf(who).Drained? || s.PcOf(who).Uncordoned? ==> who == ServerDevice
  {
  }

  lemma NextCalls(s: State, step: Step)
    requires Inv(s) && CallInv(s)
    ensures Inv(Next(s, step)) && CallInv(Next(s, step))
  {
    NextInv(s, step);
    assert Shape(s) && Shape(Next(s, step)) && MarksKnown(s);
    match step
    case RequestDrain =>
      EditMarks(s.Current(), s.epoch, "", Empty);
      AppendCalls(s, s.Current()[Drain := True]);
    case Annotate(name, value) =>
      EditMarks(s.Current(), s.epoch, name, value);
      AppendCalls(s, s.Current()[Foreign(name) := value]);
    case Act(who, outcome, bump) =>
      hide ActNext, CallInv, Inv, Shape;
      if s.Exists(who) { ActCalls(s, who, outcome, bump); }
    case _ => hide MarksOf, WellMarked, Inv, Exact;
  }

  lemma {:induction false} RunCalls(s: State, steps: seq<Step>)
    requires Inv(s) && CallInv(s)
    ensures Inv(Run(s, steps)) && CallInv(Run(s, steps))
    decreases |steps|
  {
    hide Inv, CallInv, Next;
    if steps != [] {
      NextCalls(s, steps[0]);
      RunCalls(Next(s, steps[0]), steps[1..]);
    }
  }

  // Over every run, stale reads included: an Uncordon call comes after the node was started again
  // since its last termination mark if and only if, at the call, the newest version of the Node does
  // not carry the mark of the current epoch. So the calls made so far, and one that is about to be.
  lemma UncordonExact(colocated: bool, a: Annotations, epoch: nat, steps: seq<Step>)
    requires Unused(MarksOf(a))
    ensures var s := Run(Initial(colocated, a, epoch), steps);
      && |s.versions| > 0
      && (forall u :: u in s.uncordons ==> (AfterRestart(u) <==> u.terminated != Boot(u.epoch)))
      && (s.server.Fetched? && s.server.v < |s.versions| && WantsUncordon(MarksOf(s.versions[s.server.v])) ==>
            (AfterRestart(UncordonCall(s.epoch, s.marks, s.Now().terminated)) <==> s.Now().terminated != Boot(s.epoch)))
  {
    var s := Run(Initial(colocated, a, epoch), steps);
    InitialInv(colocated, a, epoch);
    RunCalls(Initial(colocated, a, epoch), steps);
    assert Shape(s);
    hide Inv, Run, MarksOf;
    if s.server.Fetched? && s.server.v < |s.versions| && WantsUncordon(MarksOf(s.versions[s.server.v])) {
      CallIsExact(s, s.server.v);
    }
    forall u | u in s.uncordons ensures Exact(u) {}
  }

  // The server device is never served an older version than before.
  predicate ForwardReads(s: State, steps: seq<Step>)
    decreases |steps|
  {
    steps == [] ||
    ((match steps[0]
      case Get(who, back) => who == ServerDevice && back < |s.versions| ==> s.lastRead + back + 1 <= |s.versions|
      case _ => true)
     && ForwardReads(Next(s, steps[0]), steps[1..]))
  }

  predicate Settled(s: State)
    requires |s.versions| > 0
  {
    s.Now().shutdown != True && s.Now().terminated == Empty
  }

  // No version from lo up to hi asks the server device to uncordon the node.
  predicate Quiet(s: State, lo: nat, hi: nat) {
    forall j :: lo <= j < hi && j < |s.versions| ==> !WantsUncordon(MarksOf(s.versions[j]))
  }

  predicate UncordonInv(s: State)
    requires Shape(s)
  {
    && (forall i :: 0 <= i < |s.uncordons| ==> s.uncordons[i].terminated == Empty)
    && (Quiet(s, s.lastRead, |s.versions|) || Settled(s))
    && (s.server.Fetched? ==> s.server.v == s.lastRead)
    && (s.server.Marked? || s.server.Drained? ==> Quiet(s, s.lastRead, s.server.v + 1))
  }

  lemma AppendUncordonInv(s: State, a: Annotations)
    requires Inv(s) && UncordonInv(s) && Shape(s.(versions := s.versions + [a]))
    requires MarksOf(a).(drain := Empty) == s.Now().(drain := Empty)
    requires MarksOf(a).drain == True || MarksOf(a) == s.Now()
    ensures UncordonInv(s.(versions := s.versions + [a]))
  {
    assert Shape(s);
    hide MarksOf, WellMarked, Inv;
  }

  lemma GiveUpUncordonInv(s: State, who: Device)
    requires Inv(s) && s.Exists(who) && UncordonInv(s)
    ensures UncordonInv(s.At(who, Idle))
  {
    hide MarksOf, WellMarked;
  }

  lemma MarkUncordonInv(s: State, v: nat, outcome: Outcome, bump: bool)
    requires Inv(s) && UncordonInv(s) && s.server == Fetched(v) && WantsDrain(MarksOf(s.versions[v]))
    requires Shape(ActMark(s, ServerDevice, v, outcome, bump))
    ensures UncordonInv(ActMark(s, ServerDevice, v, outcome, bump))
  {
    EditMarks(s.versions[v], s.epoch, "", Empty);
    GiveUpUncordonInv(s, ServerDevice);
    hide MarksOf, WellMarked, MarkEdit, Inv;
  }

  // Where the call is made the Node carries no termination mark.
  lemma CallUncordonInv(s: State, v: nat, outcome: Outcome)
    requires Inv(s) && UncordonInv(s) && s.server == Fetched(v) && WantsUncordon(MarksOf(s.versions[v]))
    requires Shape(ActUncordon(s, ServerDevice, v, outcome))
    ensures UncordonInv(ActUncordon(s, ServerDevice, v, outcome))
  {
    assert Settled(s);
    hide MarksOf, WellMarked, Inv;
  }

  lemma TerminateUncordonInv(s: State, v: nat, outcome: Outcome, bump: bool)
    requires Inv(s) && UncordonInv(s) && s.PcOf(s.Local()) == Fetched(v)
    requires WantsTerminate(MarksOf(s.versions[v]), s.epoch) && Shape(ActTerminate(s, s.Local(), v, outcome, bump))
    ensures UncordonInv(ActTerminate(s, s.Local(), v, outcome, bump))
  {
    EditMarks(s.versions[v], s.epoch, "", Empty);
    GiveUpUncordonInv(s, s.Local());
    assert Commits(s, v, outcome) ==> s.Now().restarted == False;
    hide MarksOf, WellMarked, TerminateEdit, Inv;
  }

  lemma RestartUncordonInv(s: State, v: nat, outcome: Outcome, bump: bool)
    requires Inv(s) && UncordonInv(s) && s.PcOf(s.Local()) == Fetched(v)
    requires WantsRestart(MarksOf(s.versions[v]), s.epoch) && Shape(ActRestart(s, s.Local(), v, outcome, bump))
    ensures UncordonInv(ActRestart(s, s.Local(), v, outcome, bump))
  {
    EditMarks(s.versions[v], s.epoch, "", Empty);
    GiveUpUncordonInv(s, s.Local());
    hide MarksOf, WellMarked, RestartEdit, Inv;
  }

  lemma LastWriteUncordonInv(s: State, outcome: Outcome, bump: bool)
    requires Inv(s) && UncordonInv(s) && (s.server.Drained? || s.server.Uncordoned?)
    requires Shape(ActNext(s, ServerDevice, outcome, bump))
    ensures UncordonInv(ActNext(s, ServerDevice, outcome, bump))
  {
    EditMarks(s.versions[s.server.v], s.epoch, "", Empty);
    GiveUpUncordonInv(s, ServerDevice);
    hide MarksOf, WellMarked, RequestShutdownEdit, UncordonEdit, Inv;
  }

  lemma ActUncordonInv(s: State, who: Device, outcome: Outcome, bump: bool)
    requires Inv(s) && UncordonInv(s) && s.Exists(who) && Shape(ActNext(s, who, outcome, bump))
    ensures UncordonInv(ActNext(s, who, outcome, bump))
  {
    assert Shape(s);
    GiveUpUncordonInv(s, who);
    hide Inv, MarksOf, WellMarked, ActMark, ActUncordon, ActTerminate, ActRestart;
    match s.PcOf(who)
    case Fetched(v) =>
      var m := MarksOf(s.versions[v]);
      hide UncordonInv, Shape;
      if s.IsServer(who) && WantsDrain(m) {
        MarkUncordonInv(s, v, outcome, bump);
      } else if s.IsServer(who) && WantsUncordon(m) {
        CallUncordonInv(s, v, outcome);
      } else if s.IsLocal(who) && WantsTerminate(m, s.epoch) {
        TerminateUncordonInv(s, v, outcome, bump);
      } else if s.IsLocal(who) && WantsRestart(m, s.epoch) {
        RestartUncordonInv(s, v, outcome, bump);
      }
    case Drained(v) => LastWriteUncordonInv(s, outcome, bump);
    case Uncordoned(v) => LastWriteUncordonInv(s, outcome, bump);
    case _ =>
  }

  lemma NextUncordonInv(s: State, step: Step)
    requires Inv(s) && UncordonInv(s) && ForwardReads(s, [step])
    ensures Inv(Next(s, step)) && UncordonInv(Next(s, step))
  {
    NextInv(s, step);
    assert Shape(s) && Shape(Next(s, step));
    match step
    case RequestDrain =>
      EditMarks(s.Current(), s.epoch, "", Empty);
      AppendUncordonInv(s, s.Current()[Drain := True]);
    case Annotate(name, value) =>
      EditMarks(s.Current(), s.epoch, name, value);
      AppendUncordonInv(s, s.Current()[Foreign(name) := value]);
    case Act(who, outcome, bump) =>
      hide ActNext, UncordonInv, Inv, Shape;
      if s.Exists(who) { ActUncordonInv(s, who, outcome, bump); }
    case _ => hide MarksOf, WellMarked;
  }

  lemma {:induction false} RunUncordonInv(s: State, steps: seq<Step>)
    requires Inv(s) && UncordonInv(s) && ForwardReads(s, steps)
    ensures Inv(Run(s, steps)) && UncordonInv(Run(s, steps))
    decreases |steps|
  {
    hide Inv, UncordonInv, Next;
    if steps != [] {
      assert ForwardReads(s, [steps[0]]) by { assert [steps[0]][1..] == []; }
      NextUncordonInv(s, steps[0]);
      RunUncordonInv(Next(s, steps[0]), steps[1..]);
    }
  }

  // If the server device's reads never go backwards, no termination mark is left at a call, and so
  // every call comes after the node entered a new epoch since its last one.
  lemma UncordonSafety(colocated: bool, a: Annotations, epoch: nat, steps: seq<Step>)
    requires Unused(MarksOf(a)) && ForwardReads(Initial(colocated, a, epoch), steps)
    ensures forall u :: u in Run(Initial(colocated, a, epoch), steps).uncordons ==>
      u.terminated == Empty && AfterRestart(u)
  {
    InitialInv(colocated, a, epoch);
    RunUncordonInv(Initial(colocated, a, epoch), steps);
    assert UncordonInv(Run(Initial(colocated, a, epoch), steps));
    UncordonExact(colocated, a, epoch, steps);
    hide Inv, Run;
  }

  // What one undisturbed reconcile of each kind does to a system of two devices.
  lemma ServerGets(s: State, back: nat)
    requires back < |s.versions| && s.server.Idle?
    ensures Next(s, Get(ServerDevice, back)) ==
      s.(server := Fetched(|s.versions| - 1 - back), lastRead := |s.versions| - 1 - back)
  {
  }

  lemma OwnGets(s: State)
    requires |s.versions| > 0 && !s.colocated && s.own.Idle?
    ensures Next(s, Get(OwnDevice, 0)) == s.(own := Fetched(|s.versions| - 1))
  {
  }

  lemma ServerMarks(s: State)
    requires |s.versions| > 0 && s.server == Fetched(|s.versions| - 1) && WantsDrain(s.Now())
    ensures Next(s, Ack(ServerDevice)) ==
      s.(server := Marked(|s.versions|), versions := s.versions + [MarkEdit(s.Current())])
  {
    hide MarksOf, MarkEdit;
  }

  lemma ServerDrainsNode(s: State)
    requires |s.versions| > 0 && s.server.Marked?
    ensures Next(s, Ack(ServerDevice)) == s.(server := Drained(s.server.v), drains := s.drains + 1)
  {
  }

  lemma ServerRequestsShutdown(s: State)
    requires |s.versions| > 0 && s.server == Drained(|s.versions| - 1)
    ensures Next(s, Ack(ServerDevice)) ==
      s.(server := Idle, versions := s.versions + [RequestShutdownEdit(s.Current())])
  {
    hide RequestShutdownEdit;
  }

  lemma OwnTerminates(s: State)
    requires |s.versions| > 0 && !s.colocated && s.own == Fetched(|s.versions| - 1) && WantsTerminate(s.Now(), s.epoch)
    ensures Next(s, Ack(OwnDevice)) ==
      s.(own := Terminating, marks := s.marks + [s.epoch],
         versions := s.versions + [TerminateEdit(s.Current(), s.epoch)])
  {
    hide MarksOf, TerminateEdit;
  }

  lemma OwnShutsDown(s: State)
    requires |s.versions| > 0 && !s.colocated && s.own.Terminating?
    ensures Next(s, Ack(OwnDevice)) == s.(own := Idle, shutdowns := s.shutdowns + [s.epoch])
  {
  }

  lemma OwnRests(s: State)
    requires |s.versions| > 0 && !s.colocated && s.own.Idle?
    ensures Next(s, Ack(OwnDevice)) == s
  {
  }

  lemma OwnRestarts(s: State)
    requires |s.versions| > 0 && !s.colocated && s.own == Fetched(|s.versions| - 1) && WantsRestart(s.Now(), s.epoch)
    ensures Next(s, Ack(OwnDevice)) == s.(own := Idle, versions := s.versions + [RestartEdit(s.Current())])
  {
    hide MarksOf, RestartEdit;
  }

  lemma FreshServerDrains(s: State, a: Annotations)
    requires |s.versions| > 0 && !s.colocated && s.server.Idle? && WantsDrain(s.Now()) && a == MarkEdit(s.Current())
    ensures Run(s, Fresh(ServerDevice)) ==
      s.(versions := s.versions + [a] + [RequestShutdownEdit(a)], lastRead := |s.versions| - 1,
         drains := s.drains + 1)
  {
    hide Run, Next, MarksOf, MarkEdit, RequestShutdownEdit, WantsDrain, Fresh, Finish, Ack;
    var n := |s.versions|;
    var s1 := s.(server := Fetched(n - 1), lastRead := n - 1);
    var s2 := s1.(server := Marked(n), versions := s.versions + [a]);
    var s3 := s2.(server := Drained(n), drains := s.drains + 1);
    FreshSteps(s, ServerDevice);
    ServerGets(s, 0);
    ServerMarks(s1);
    ServerDrainsNode(s2);
    ServerRequestsShutdown(s3);
  }

  lemma FreshOwnTerminates(s: State)
    requires |s.versions| > 0 && !s.colocated && s.own.Idle? && WantsTerminate(s.Now(), s.epoch)
    ensures Run(s, Fresh(OwnDevice)) ==
      s.(versions := s.versions + [TerminateEdit(s.Current(), s.epoch)], marks := s.marks + [s.epoch],
         shutdowns := s.shutdowns + [s.epoch])
  {
    hide MarksOf, TerminateEdit, Run, Next, WantsTerminate, Fresh, Finish, Ack;
    var s1 := s.(own := Fetched(|s.versions| - 1));
    var s2 := s.(own := Terminating, marks := s.marks + [s.epoch],
                 versions := s.versions + [TerminateEdit(s.Current(), s.epoch)]);
    FreshSteps(s, OwnDevice);
    OwnGets(s);
    OwnTerminates(s1);
    OwnShutsDown(s2);
    OwnRests(s2.(own := Idle, shutdowns := s.shutdowns + [s.epoch]));
  }

  lemma FreshOwnRestarts(s: State)
    requires |s.versions| > 0 && !s.colocated && s.own.Idle? && WantsRestart(s.Now(), s.epoch)
    ensures Run(s, Fresh(OwnDevice)) == s.(versions := s.versions + [RestartEdit(s.Current())])
  {
    hide MarksOf, RestartEdit, Run, Next, WantsRestart, Fresh, Finish, Ack;
    var s2 := s.(versions := s.versions + [RestartEdit(s.Current())]);
    FreshSteps(s, OwnDevice);
    OwnGets(s);
    OwnRestarts(s.(own := Fetched(|s.versions| - 1)));
    OwnRests(s2);
  }

  // A request and the drain of a node that carries none of these marks.
  lemma RequestAndDrain(s: State)
    requires |s.versions| > 0 && !s.colocated && s.server.Idle?
    requires s.Now().shutdown == Empty && s.Now().terminated == Empty
    ensures var t := Run(Next(s, RequestDrain), Fresh(ServerDevice));
      && |t.versions| == |s.versions| + 3 && s.versions <= t.versions
      && t == s.(versions := t.versions, lastRead := |s.versions|, drains := s.drains + 1)
      && t.Now() == Marks(Empty, True, True, False, Empty)
  {
    var a1 := s.Current()[Drain := True];
    var s1 := s.(versions := s.versions + [a1]);
    assert Next(s, RequestDrain) == s1;
    EditMarks(s.Current(), 0, "", Empty);
    EditMarks(a1, 0, "", Empty);
    EditMarks(MarkEdit(a1), 0, "", Empty);
    hide MarksOf, MarkEdit, RequestShutdownEdit, Fresh, Run, Next;
    FreshServerDrains(s1, MarkEdit(a1));
    assert s1.Current() == a1;
  }

  // ... and its termination.
  lemma DrainCycle(s: State)
    requires |s.versions| > 0 && !s.colocated && s.server.Idle? && s.own.Idle?
    requires s.Now().shutdown == Empty && s.Now().terminated == Empty
    ensures var t := Run(s, SecondCycle());
      && |t.versions| == |s.versions| + 4 && s.versions <= t.versions
      && t == s.(versions := t.versions, lastRead := |s.versions|, drains := s.drains + 1,
                 marks := s.marks + [s.epoch], shutdowns := s.shutdowns + [s.epoch])
      && t.Now() == Marks(Empty, Empty, True, False, Boot(s.epoch))
  {
    var s2 := Run(Next(s, RequestDrain), Fresh(ServerDevice));
    assert Run(s, SecondCycle()) == Run(s2, Fresh(OwnDevice)) by {
      RunAppend(s, [RequestDrain] + Fresh(ServerDevice), Fresh(OwnDevice));
      RunAppend(s, [RequestDrain], Fresh(ServerDevice));
      assert Run(s, [RequestDrain]) == Next(s, RequestDrain);
    }
    hide MarksOf, TerminateEdit, Fresh, Run, Next, SecondCycle;
    RequestAndDrain(s);
    EditMarks(s2.Current(), s.epoch, "", Empty);
    FreshOwnTerminates(s2);
  }

  // One drain and restart, a second drain up to the Shutdown call, then a read of the version
  // the first restart left behind.
  function StaleRead(): seq<Step> {
    FirstCycle() + SecondCycle() + OldRead(4)
  }

  function OldRead(back: nat): seq<Step> {
    [Get(ServerDevice, back), Ack(ServerDevice)]
  }

  function FirstCycle(): seq<Step> {
    [RequestDrain] + Fresh(ServerDevice) + Fresh(OwnDevice) + [NewEpoch] + Fresh(OwnDevice)
  }

  function SecondCycle(): seq<Step> {
    [RequestDrain] + Fresh(ServerDevice) + Fresh(OwnDevice)
  }

  lemma ServerCallsUncordon(s: State)
    requires s.server.Fetched? && s.server.v < |s.versions| && WantsUncordon(MarksOf(s.versions[s.server.v]))
    ensures Next(s, Ack(ServerDevice)) ==
      s.(server := Uncordoned(s.server.v),
         uncordons := s.uncordons + [UncordonCall(s.epoch, s.marks, s.Now().terminated)])
  {
    hide MarksOf;
  }

  lemma OldReadSteps(s: State, back: nat)
    ensures Run(s, OldRead(back)) == Next(Next(s, Get(ServerDevice, back)), Ack(ServerDevice))
  {
    hide Next;
    assert OldRead(back)[1..] == [Ack(ServerDevice)] && [Ack(ServerDevice)][1..] == [];
  }

  // A read from before the last one that the server device was served.
  lemma OldReadUncordons(s: State, back: nat)
    requires back < |s.versions| && s.server.Idle? && WantsUncordon(MarksOf(s.versions[|s.versions| - 1 - back]))
    ensures var v := |s.versions| - 1 - back;
      Run(s, OldRead(back)) ==
        s.(server := Uncordoned(v), lastRead := v,
           uncordons := s.uncordons + [UncordonCall(s.epoch, s.marks, s.Now().terminated)])
  {
    hide Run, MarksOf, Next, OldRead, WantsUncordon;
    OldReadSteps(s, back);
    ServerGets(s, back);
    var v := |s.versions| - 1 - back;
    ServerCallsUncordon(s.(server := Fetched(v), lastRead := v));
  }

  // Without that assumption the protocol fails, on whatever node it is used:
  // the node is uncordoned while it shuts down.
  lemma StaleReadUncordons(a: Annotations, epoch: nat)
    requires Unused(MarksOf(a))
    ensures var s := Run(Initial(false, a, epoch), StaleRead());
      && s.uncordons == [UncordonCall(epoch + 1, [epoch, epoch + 1], Boot(epoch + 1))] && !AfterRestart(s.uncordons[0])
      && s.shutdowns == [epoch, epoch + 1] && s.epoch == epoch + 1
      && |s.versions| > 0 && s.Now().terminated == Boot(s.epoch)
    ensures !ForwardReads(Initial(false, a, epoch), StaleRead())
  {
    hide Run, MarksOf, SecondCycle, FirstCycle, Fresh, Next, OldRead, WellMarked;
    var s0 := Initial(false, a, epoch);
    var s3 := Run(s0, FirstCycle());
    var s4 := Run(s3, SecondCycle());
    RunAppend(s0, FirstCycle() + SecondCycle(), OldRead(4));
    RunAppend(s0, FirstCycle(), SecondCycle());
    AfterFirstCycle(a, epoch);
    DrainCycle(s3);
    assert s4.versions[5] == s3.Current();
    OldReadUncordons(s4, 4);
    assert s3.marks + [s3.epoch] == [epoch, epoch + 1];
    if ForwardReads(s0, StaleRead()) {
      ForwardSuffix(s0, FirstCycle() + SecondCycle(), OldRead(4));
      OldReadIsBackwards(s4, 4);
    }
  }

  lemma OldReadIsBackwards(s: State, back: nat)
    requires back < |s.versions| < s.lastRead + back + 1
    ensures !ForwardReads(s, OldRead(back))
  {
  }

  lemma AfterFirstCycle(a: Annotations, epoch: nat)
    requires Unused(MarksOf(a))
    ensures var s := Run(Initial(false, a, epoch), FirstCycle());
      && |s.versions| == 6 && s.Now() == Marks(Empty, Empty, True, True, Empty)
      && s == Initial(false, a, epoch).(versions := s.versions, epoch := epoch + 1, lastRead := 1, drains := 1,
                                        marks := [epoch], shutdowns := [epoch])
  {
    hide MarksOf, SecondCycle, Fresh, RestartEdit, Next, Run;
    var s0 := Initial(false, a, epoch);
    var s1 := Run(s0, SecondCycle());
    var s2 := s1.(epoch := s1.epoch + 1);
    FirstCycleSteps(s0);
    DrainCycle(s0);
    NodeStarts(s1);
    EditMarks(s2.Current(), 0, "", Empty);
    FreshOwnRestarts(s2);
  }

  lemma NodeStarts(s: State)
    requires |s.versions| > 0 && !s.colocated && s.own.Idle?
    ensures Next(s, NewEpoch) == s.(epoch := s.epoch + 1)
  {
  }

  lemma FirstCycleSteps(s: State)
    ensures Run(s, FirstCycle()) == Run(Next(Run(s, SecondCycle()), NewEpoch), Fresh(OwnDevice))
  {
    hide Fresh, Next;
    RunAppend(s, SecondCycle() + [NewEpoch], Fresh(OwnDevice));
    RunAppend(s, SecondCycle(), [NewEpoch]);
    assert FirstCycle() == SecondCycle() + [NewEpoch] + Fresh(OwnDevice);
  }

  lemma {:induction false} ForwardSuffix(s: State, xs: seq<Step>, ys: seq<Step>)
    requires ForwardReads(s, xs + ys)
    ensures ForwardReads(Run(s, xs), ys)
    decreases |xs|
  {
    if xs == [] {
      assert xs + ys == ys;
    } else {
      assert (xs + ys)[0] == xs[0] && (xs + ys)[1..] == xs[1..] + ys;
      ForwardSuffix(Next(s, xs[0]), xs[1..], ys);
    }
  }
}
