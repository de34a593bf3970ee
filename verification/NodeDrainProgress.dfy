/** What the drain protocol brings about: a request is worked off by every fair run, in which the
    node is started again only where it shut down. */
module NodeDrainProgress {
  import opened NodeDrain

  // ---------------------------------------------------------------- progress

  // A bound on the changes of the marks still to come: a pending drain ends in a shutdown request, a
  // shutdown request in a termination mark, which outlives one epoch and ends in a restart, and
  // that in an uncordon. A restart in between makes a pending drain set its marks again.
  function Rank(m: Marks, epoch: nat): nat {
    var here := m.terminated == Boot(epoch);
    if m.drain == True then
      if m.shutdown == True then (if here then 11 else 10)
      else if here then 9
      else if m.terminated != Empty then 7
      else if m.uncordon == True && m.restarted == False then 5
      else 6
    else if m.shutdown == True then (if here then 8 else 4)
    else if here then 3
    else if m.terminated != Empty then 2
    else if m.uncordon == True then 1
    else 0
  }

  function Left(s: State): nat
    requires |s.versions| > 0
  {
    Rank(s.Now(), s.epoch)
  }

  predicate Idling(s: State)
    requires |s.versions| > 0
  {
    var m := s.Now();
    m.drain != True && m.shutdown != True && m.terminated == Empty && m.uncordon != True
  }

  lemma NothingLeft(s: State)
    requires |s.versions| > 0
    ensures Left(s) == 0 <==> Idling(s)
    ensures Left(s) <= 11
  {
  }

  predicate Progress(s: State, t: State)
    requires |s.versions| > 0 && |t.versions| > 0
  {
    Left(t) <= Left(s) && (t.Now() != s.Now() ==> Left(t) < Left(s))
  }

  // Each edit of the protocol, made where its branch makes it, changes nothing or lowers the rank.
  lemma EditRanks(m: Marks, epoch: nat)
    requires WellMarked(m)
    ensures WantsDrain(m) ==>
      var m' := m.(uncordon := True, restarted := False); m' == m || Rank(m', epoch) < Rank(m, epoch)
    ensures DrainMarked(m) ==> Rank(m.(drain := Empty, shutdown := True), epoch) < Rank(m, epoch)
    ensures WantsUncordon(m) ==> Rank(m.(uncordon := Empty), epoch) < Rank(m, epoch)
    ensures WantsTerminate(m, epoch) ==> Rank(m.(shutdown := Empty, terminated := Boot(epoch)), epoch) < Rank(m, epoch)
    ensures WantsRestart(m, epoch) ==> Rank(m.(terminated := Empty, restarted := True), epoch) < Rank(m, epoch)
  {
  }

  lemma UpdateProgress(s: State, who: Device, v: nat, a: Annotations, outcome: Outcome, bump: bool, pc: Pc)
    requires v < |s.versions|
    requires v + 1 == |s.versions| ==> Rank(MarksOf(a), s.epoch) < Left(s) || MarksOf(a) == s.Now()
    ensures var t := Update(s, who, v, a, outcome, bump, pc);
      |t.versions| > 0 && Progress(s, t) && (Commits(s, v, outcome) ==> t.Now() == MarksOf(a))
  {
    hide MarksOf, Rank;
  }

  lemma MarkProgress(s: State, who: Device, v: nat, outcome: Outcome, bump: bool)
    requires Shape(s) && v < |s.versions| && WantsDrain(MarksOf(s.versions[v]))
    ensures var t := ActMark(s, who, v, outcome, bump); |t.versions| > 0 && Progress(s, t)
  {
    var a := MarkEdit(s.versions[v]);
    EditMarks(s.versions[v], s.epoch, "", Empty);
    EditRanks(MarksOf(s.versions[v]), s.epoch);
    UpdateProgress(s, who, v, a, outcome, bump, Marked(CommittedVersion(s, a, bump)));
  }

  lemma TerminateProgress(s: State, who: Device, v: nat, outcome: Outcome, bump: bool)
    requires Shape(s) && v < |s.versions| && WantsTerminate(MarksOf(s.versions[v]), s.epoch)
    ensures var t := ActTerminate(s, who, v, outcome, bump); |t.versions| > 0 && Progress(s, t)
  {
    EditMarks(s.versions[v], s.epoch, "", Empty);
    EditRanks(MarksOf(s.versions[v]), s.epoch);
    var s' := if Commits(s, v, outcome) then s.(marks := s.marks + [s.epoch]) else s;
    UpdateProgress(s', who, v, TerminateEdit(s.versions[v], s.epoch), outcome, bump, Terminating);
  }

  lemma RestartProgress(s: State, who: Device, v: nat, outcome: Outcome, bump: bool)
    requires Shape(s) && v < |s.versions| && WantsRestart(MarksOf(s.versions[v]), s.epoch)
    ensures var t := ActRestart(s, who, v, outcome, bump); |t.versions| > 0 && Progress(s, t)
  {
    EditMarks(s.versions[v], s.epoch, "", Empty);
    EditRanks(MarksOf(s.versions[v]), s.epoch);
    UpdateProgress(s, who, v, RestartEdit(s.versions[v]), outcome, bump, Idle);
  }

  lemma FetchedProgress(s: State, who: Device, v: nat, outcome: Outcome, bump: bool)
    requires Shape(s) && s.PcOf(who) == Fetched(v)
    ensures var t := ActFetched(s, who, v, outcome, bump); |t.versions| > 0 && Progress(s, t)
  {
    var m := MarksOf(s.versions[v]);
    hide MarksOf, ActMark, ActTerminate, ActRestart, Rank, WellMarked;
    if s.IsServer(who) && WantsDrain(m) {
      MarkProgress(s, who, v, outcome, bump);
    } else if s.IsServer(who) && WantsUncordon(m) {
    } else if s.IsLocal(who) && WantsTerminate(m, s.epoch) {
      TerminateProgress(s, who, v, outcome, bump);
    } else if s.IsLocal(who) && WantsRestart(m, s.epoch) {
      RestartProgress(s, who, v, outcome, bump);
    }
  }

  lemma DrainedProgress(s: State, who: Device, v: nat, outcome: Outcome, bump: bool)
    requires Shape(s) && s.PcOf(who) == Drained(v)
    ensures var t := ActNext(s, who, outcome, bump); |t.versions| > 0 && Progress(s, t)
  {
    EditMarks(s.versions[v], s.epoch, "", Empty);
    EditRanks(MarksOf(s.versions[v]), s.epoch);
    UpdateProgress(s, who, v, RequestShutdownEdit(s.versions[v]), outcome, bump, Idle);
  }

  lemma UncordonedProgress(s: State, who: Device, v: nat, outcome: Outcome, bump: bool)
    requires Shape(s) && s.PcOf(who) == Uncordoned(v)
    ensures var t := ActNext(s, who, outcome, bump); |t.versions| > 0 && Progress(s, t)
  {
    EditMarks(s.versions[v], s.epoch, "", Empty);
    EditRanks(MarksOf(s.versions[v]), s.epoch);
    UpdateProgress(s, who, v, UncordonEdit(s.versions[v]), outcome, bump, Idle);
  }

  lemma ActProgress(s: State, who: Device, outcome: Outcome, bump: bool)
    requires Shape(s) && s.Exists(who)
    ensures var t := ActNext(s, who, outcome, bump); |t.versions| > 0 && Progress(s, t)
  {
    hide ActFetched, Update, Rank, MarksOf, WellMarked;
    match s.PcOf(who)
    case Fetched(v) => FetchedProgress(s, who, v, outcome, bump);
    case Drained(v) => DrainedProgress(s, who, v, outcome, bump);
    case Uncordoned(v) => UncordonedProgress(s, who, v, outcome, bump);
    case _ =>
  }

  // No step but a drain request adds work, and a step that changes a mark removes some.
  lemma StepProgress(s: State, step: Step)
    requires Inv(s) && step != RequestDrain
    ensures |Next(s, step).versions| > 0 && Progress(s, Next(s, step))
  {
    match step
    case Annotate(name, value) => EditMarks(s.Current(), s.epoch, name, value);
    case NewEpoch =>
      assert MarksKnown(s);
    case ServerRestart =>
    case Get(who, back) => hide MarksOf;
    case Act(who, outcome, bump) =>
      if s.Exists(who) { ActProgress(s, who, outcome, bump); }
  }

  predicate DrainFree(steps: seq<Step>) {
    RequestDrain !in steps
  }

  // How often a run changes a mark of the Node.
  function Changes(s: State, steps: seq<Step>): nat
    decreases |steps|
  {
    if steps == [] then 0 else
      var t := Next(s, steps[0]);
      Count(|s.versions| > 0 && |t.versions| > 0 && t.Now() != s.Now()) + Changes(t, steps[1..])
  }

  // After the last request the marks change at most eleven times, whatever the interleaving.
  lemma {:induction false} RunProgress(s: State, steps: seq<Step>)
    requires Inv(s) && DrainFree(steps)
    ensures Inv(Run(s, steps)) && Progress(s, Run(s, steps))
    ensures Changes(s, steps) + Left(Run(s, steps)) <= Left(s) <= 11
    decreases |steps|
  {
    NothingLeft(s);
    if steps != [] {
      NextInv(s, steps[0]);
      StepProgress(s, steps[0]);
      RunProgress(Next(s, steps[0]), steps[1..]);
      hide Inv, Rank, MarksOf;
    }
  }

  // ---------------------------------------------------------------- no request gets stuck

  // The next action of who, with its call acknowledged.
  function Ack(who: Device): Step { Act(who, Acknowledged, true) }

  // Finishing whatever reconcile is under way takes at most three more actions.
  function Finish(who: Device): seq<Step> {
    [Ack(who), Ack(who), Ack(who)]
  }

  // One whole reconcile that reads the newest version and whose calls all succeed.
  function Fresh(who: Device): seq<Step> {
    [Get(who, 0), Ack(who), Ack(who), Ack(who)]
  }

  // Each device is served once.
  function Turn(): seq<Step> {
    Finish(ServerDevice) + Fresh(ServerDevice) + Finish(OwnDevice) + Fresh(OwnDevice)
  }

  lemma FinishSteps(s: State, who: Device)
    ensures Run(s, Finish(who)) == Next(Next(Next(s, Ack(who)), Ack(who)), Ack(who))
  {
    hide Next;
    var act := Ack(who);
    assert Finish(who)[1..] == [act, act] && [act, act][1..] == [act] && [act][1..] == [];
    assert Run(Next(s, act), [act, act]) == Run(Next(Next(s, act), act), [act]);
    assert Run(Next(Next(s, act), act), [act]) == Next(Next(Next(s, act), act), act);
  }

  lemma FreshSteps(s: State, who: Device)
    ensures Run(s, Fresh(who)) == Next(Next(Next(Next(s, Get(who, 0)), Ack(who)), Ack(who)), Ack(who))
  {
    hide Next;
    assert Fresh(who)[1..] == Finish(who);
    FinishSteps(Next(s, Get(who, 0)), who);
  }

  // Actions left in the reconcile under way.
  function ToGo(pc: Pc): nat {
    match pc
    case Idle => 0
    case Fetched(v) => 3
    case Marked(v) => 2
    case Drained(v) => 1
    case Uncordoned(v) => 1
    case Terminating => 1
  }

  lemma ActShortens(s: State, who: Device, outcome: Outcome, bump: bool)
    requires Inv(s) && s.Exists(who)
    ensures ToGo(Next(s, Act(who, outcome, bump)).PcOf(who)) <= if s.PcOf(who).Idle? then 0 else ToGo(s.PcOf(who)) - 1
  {
    assert Shape(s);
    hide Inv, MarksOf, Commit;
  }

  lemma FinishEnds(s: State, who: Device)
    requires Inv(s) && s.Exists(who)
    ensures Inv(Run(s, Finish(who))) && Run(s, Finish(who)).PcOf(who).Idle?
    ensures Run(s, Finish(who)).colocated == s.colocated
  {
    var act := Ack(who);
    var s1 := Next(s, act);
    var s2 := Next(s1, act);
    FinishSteps(s, who);
    NextInv(s, act);
    NextInv(s1, act);
    NextInv(s2, act);
    ActShortens(s, who, Acknowledged, true);
    KeepsPlace(s, act);
    KeepsPlace(s1, act);
    KeepsPlace(s2, act);
    hide Inv, Next;
    ActShortens(s1, who, Acknowledged, true);
    ActShortens(s2, who, Acknowledged, true);
  }

  lemma KeepsPlace(s: State, step: Step)
    ensures Next(s, step).colocated == s.colocated
    ensures step != NewEpoch ==> Next(s, step).epoch == s.epoch
  {
    hide MarksOf;
  }

  lemma {:induction false} RunKeepsPlace(s: State, steps: seq<Step>)
    ensures Run(s, steps).colocated == s.colocated
    ensures NewEpoch !in steps ==> Run(s, steps).epoch == s.epoch
    decreases |steps|
  {
    hide Next;
    if steps != [] {
      KeepsPlace(s, steps[0]);
      RunKeepsPlace(Next(s, steps[0]), steps[1..]);
    }
  }

  predicate AtNewest(s: State, pc: Pc) {
    (pc.Fetched? || pc.Marked? || pc.Drained? || pc.Uncordoned?) && pc.v + 1 == |s.versions|
  }

  lemma GetNewest(s: State, who: Device)
    requires Inv(s) && s.Exists(who) && s.PcOf(who).Idle?
    ensures var t := Next(s, Get(who, 0));
      && Inv(t) && t.PcOf(who) == Fetched(|t.versions| - 1) && t.versions == s.versions && t.epoch == s.epoch
      && t.colocated == s.colocated
  {
    NextInv(s, Get(who, 0));
    assert Shape(s);
    hide Inv;
  }

  lemma AckMark(s: State)
    requires Inv(s) && s.server.Fetched? && AtNewest(s, s.server) && WantsDrain(s.Now())
    ensures var t := Next(s, Ack(ServerDevice)); Inv(t) && t.server.Marked? && AtNewest(t, t.server)
  {
    NextInv(s, Ack(ServerDevice));
    assert Shape(s);
    hide Inv, Shape, MarksOf;
  }

  lemma AckDrain(s: State)
    requires Inv(s) && s.server.Marked? && AtNewest(s, s.server)
    ensures var t := Next(s, Ack(ServerDevice)); Inv(t) && t.server.Drained? && AtNewest(t, t.server)
  {
    NextInv(s, Ack(ServerDevice));
    assert Shape(s);
    hide Inv, Shape;
  }

  // The last action of a drain, of an uncordon and both actions of the node itself.
  predicate Decisive(s: State, who: Device)
    requires |s.versions| > 0
  {
    && s.Exists(who) && AtNewest(s, s.PcOf(who))
    && match s.PcOf(who)
       case Drained(v) => who == ServerDevice
       case Uncordoned(v) => who == ServerDevice
       case Fetched(v) =>
         && !(s.IsServer(who) && (WantsDrain(s.Now()) || WantsUncordon(s.Now())))
         && s.IsLocal(who) && (WantsTerminate(s.Now(), s.epoch) || WantsRestart(s.Now(), s.epoch))
       case _ => false
  }

  lemma AckDecisive(s: State, who: Device)
    requires Inv(s) && Decisive(s, who)
    ensures var t := Next(s, Ack(who)); Inv(t) && Left(t) < Left(s)
  {
    NextInv(s, Ack(who));
    assert Shape(s);
    hide Inv, ActFetched, Rank;
    match s.PcOf(who) {
      case Drained(v) => AckDrained(s, who, v);
      case Uncordoned(v) => AckUncordoned(s, who, v);
      case Fetched(v) => AckLocal(s, who, v);
    }
  }

  lemma AckDrained(s: State, who: Device, v: nat)
    requires Shape(s) && Decisive(s, who) && s.PcOf(who) == Drained(v)
    ensures var t := ActNext(s, who, Acknowledged, true); |t.versions| > 0 && Left(t) < Left(s)
  {
    var a := s.Current();
    EditMarks(a, s.epoch, "", Empty);
    EditRanks(s.Now(), s.epoch);
    UpdateProgress(s, who, v, RequestShutdownEdit(a), Acknowledged, true, Idle);
    hide Shape, Update, MarksOf, Rank;
  }

  lemma AckUncordoned(s: State, who: Device, v: nat)
    requires Shape(s) && Decisive(s, who) && s.PcOf(who) == Uncordoned(v)
    ensures var t := ActNext(s, who, Acknowledged, true); |t.versions| > 0 && Left(t) < Left(s)
  {
    var a := s.Current();
    EditMarks(a, s.epoch, "", Empty);
    EditRanks(s.Now(), s.epoch);
    UpdateProgress(s, who, v, UncordonEdit(a), Acknowledged, true, Idle);
    hide Shape, Update, MarksOf, Rank;
  }

  lemma AckLocal(s: State, who: Device, v: nat)
    requires Shape(s) && Decisive(s, who) && s.PcOf(who) == Fetched(v)
    ensures var t := ActFetched(s, who, v, Acknowledged, true); |t.versions| > 0 && Left(t) < Left(s)
  {
    var a := s.Current();
    EditMarks(a, s.epoch, "", Empty);
    EditRanks(s.Now(), s.epoch);
    hide Shape, Update, MarksOf, Rank, TerminateEdit, RestartEdit;
    if WantsTerminate(s.Now(), s.epoch) {
      var s' := s.(marks := s.marks + [s.epoch]);
      UpdateProgress(s', who, v, TerminateEdit(a, s.epoch), Acknowledged, true, Terminating);
    } else {
      UpdateProgress(s, who, v, RestartEdit(a), Acknowledged, true, Idle);
    }
  }

  lemma AckUncordon(s: State)
    requires Inv(s) && s.server.Fetched? && AtNewest(s, s.server) && WantsUncordon(s.Now())
    ensures var t := Next(s, Ack(ServerDevice)); Inv(t) && Decisive(t, ServerDevice) && Left(t) == Left(s)
  {
    NextInv(s, Ack(ServerDevice));
    assert Shape(s);
    hide Inv, Shape, MarksOf, Rank;
  }

  // The newest version holds something for this device to do.
  predicate HasWork(s: State, who: Device)
    requires |s.versions| > 0
  {
    || (s.IsServer(who) && (WantsDrain(s.Now()) || WantsUncordon(s.Now())))
    || (s.IsLocal(who) && !WantsDrain(s.Now()) && (WantsTerminate(s.Now(), s.epoch) || WantsRestart(s.Now(), s.epoch)))
  }

  // A reconcile that reads the newest version and whose calls succeed does the work at hand.
  lemma FreshProgress(s: State, who: Device)
    requires Inv(s) && s.Exists(who) && s.PcOf(who).Idle?
    requires HasWork(s, who)
    ensures Inv(Run(s, Fresh(who))) && Left(Run(s, Fresh(who))) < Left(s)
  {
    hide Next, Rank, MarksOf, WellMarked, Run, Fresh;
    var s1 := Next(s, Get(who, 0));
    var s2, s3 := Next(s1, Ack(who)), Next(Next(s1, Ack(who)), Ack(who));
    GetNewest(s, who);
    FreshSteps(s, who);
    NextInv(s1, Ack(who));
    NextInv(s2, Ack(who));
    NextInv(s3, Ack(who));
    StepProgress(s1, Ack(who));
    StepProgress(s2, Ack(who));
    StepProgress(s3, Ack(who));
    hide Inv;
    if s.IsServer(who) && WantsDrain(s.Now()) {
      AckMark(s1);
      AckDrain(s2);
      AckDecisive(s3, who);
    } else if s.IsServer(who) && WantsUncordon(s.Now()) {
      AckUncordon(s1);
      AckDecisive(s2, who);
    } else {
      AckDecisive(s1, who);
    }
  }

  lemma FinishProgress(s: State, who: Device)
    requires Inv(s)
    ensures var t := Run(s, Finish(who));
      && Inv(t) && Progress(s, t) && t.colocated == s.colocated && t.epoch == s.epoch
      && (s.Exists(who) ==> t.PcOf(who).Idle?)
  {
    RunProgress(s, Finish(who));
    RunKeepsPlace(s, Finish(who));
    if s.Exists(who) { FinishEnds(s, who); }
  }

  lemma FreshSteady(s: State, who: Device)
    requires Inv(s) && (s.Exists(who) ==> s.PcOf(who).Idle?)
    ensures var t := Run(s, Fresh(who));
      Inv(t) && Progress(s, t) && t.colocated == s.colocated && t.epoch == s.epoch
      && (Left(t) == Left(s) && s.Exists(who) ==> !HasWork(s, who))
  {
    RunProgress(s, Fresh(who));
    RunKeepsPlace(s, Fresh(who));
    hide Inv, Rank, MarksOf, Run, WellMarked;
    if s.Exists(who) && HasWork(s, who) {
      FreshProgress(s, who);
    }
  }

  // Whatever state the devices and their reads are in, one turn for each of them removes work as
  // long as a request is pending and the node is not the one that was marked as terminated.
  lemma TurnProgress(s: State)
    requires Inv(s)
    ensures Inv(Run(s, Turn())) && Left(Run(s, Turn())) <= Left(s)
    ensures Left(s) > 0 && s.Now().terminated != Boot(s.epoch) ==> Left(Run(s, Turn())) < Left(s)
  {
    TurnSteps(s);
    hide Rank, MarksOf, Run, Next, WellMarked, Turn, Finish, Fresh;
    var s1 := Run(s, Finish(ServerDevice));
    var s2 := Run(s1, Fresh(ServerDevice));
    var s3 := Run(s2, Finish(OwnDevice));
    var s4 := Run(s3, Fresh(OwnDevice));
    FinishProgress(s, ServerDevice);
    FreshSteady(s1, ServerDevice);
    FinishProgress(s2, OwnDevice);
    FreshSteady(s3, OwnDevice);
    if Left(s) > 0 && s.Now().terminated != Boot(s.epoch) && Left(s4) == Left(s) {
      SomebodyHasWork(s);
      assert false;
    }
  }

  lemma TurnSteps(s: State)
    ensures Run(s, Turn()) ==
      Run(Run(Run(Run(s, Finish(ServerDevice)), Fresh(ServerDevice)), Finish(OwnDevice)), Fresh(OwnDevice))
  {
    var a, b, c, d := Finish(ServerDevice), Fresh(ServerDevice), Finish(OwnDevice), Fresh(OwnDevice);
    hide Finish, Fresh, Next;
    RunAppend(s, a + b + c, d);
    RunAppend(s, a + b, c);
    RunAppend(s, a, b);
  }

  lemma SomebodyHasWork(s: State)
    requires Inv(s) && Left(s) > 0 && s.Now().terminated != Boot(s.epoch)
    ensures HasWork(s, ServerDevice) || HasWork(s, s.Local())
  {
    hide MarksOf;
  }

  // Otherwise only a new start of the node can go on, and it removes work.
  lemma StartProgress(s: State)
    requires Inv(s) && s.Now().terminated == Boot(s.epoch)
    ensures Inv(Next(s, NewEpoch)) && Left(Next(s, NewEpoch)) < Left(s)
  {
    NextInv(s, NewEpoch);
    hide MarksOf;
  }

  // What fairness asks for in a state: a start of the node where it is marked as terminated in its
  // current epoch, otherwise a turn for each device.
  function Due(s: State): seq<Step> {
    if |s.versions| > 0 && s.Now().terminated == Boot(s.epoch) then [NewEpoch] else Turn()
  }

  // A fair run from s: arbitrary steps of anyone, what is due then, and again.
  function Fair(s: State, blocks: seq<seq<Step>>): seq<Step>
    decreases |blocks|
  {
    if blocks == [] then []
    else
      var due := Due(Run(s, blocks[0]));
      blocks[0] + due + Fair(Run(Run(s, blocks[0]), due), blocks[1..])
  }

  lemma DueProgress(s: State)
    requires Inv(s)
    ensures Inv(Run(s, Due(s))) && Left(Run(s, Due(s))) <= Left(s)
    ensures Left(s) > 0 ==> Left(Run(s, Due(s))) < Left(s)
  {
    hide Turn, MarksOf, Rank;
    assert Shape(s);
    if s.Now().terminated == Boot(s.epoch) {
      assert Run(s, [NewEpoch]) == Next(s, NewEpoch) by { hide Next; }
      StartProgress(s);
    } else {
      TurnProgress(s);
    }
  }

  // A request neither loops nor gets stuck: from every reachable state, every fair run without
  // further requests clears all marks once it has come to what is due as many times as there is
  // work, at most eleven.
  lemma {:induction false} FairRunSettles(s: State, blocks: seq<seq<Step>>)
    requires Inv(s) && (forall i :: 0 <= i < |blocks| ==> DrainFree(blocks[i]))
    requires Left(s) <= |blocks|
    ensures Inv(Run(s, Fair(s, blocks))) && Idling(Run(s, Fair(s, blocks)))
    decreases |blocks|
  {
    assert Shape(s);
    hide Inv, Due, MarksOf, Rank, Next;
    if blocks == [] {
      NothingLeft(s);
    } else {
      var s1 := Run(s, blocks[0]);
      var s2 := Run(s1, Due(s1));
      RunProgress(s, blocks[0]);
      DueProgress(s1);
      RunAppend(s, blocks[0] + Due(s1), Fair(s2, blocks[1..]));
      RunAppend(s, blocks[0], Due(s1));
      FairRunSettles(s2, blocks[1..]);
    }
  }

  // How often a fair run comes to a start of the node being due.
  function DueStarts(s: State, blocks: seq<seq<Step>>): nat
    decreases |blocks|
  {
    if blocks == [] then 0
    else
      var s1 := Run(s, blocks[0]);
      Count(Due(s1) == [NewEpoch]) + DueStarts(Run(s1, Due(s1)), blocks[1..])
  }

  // The starts that so much work can take.
  function StartsLeft(left: nat): nat {
    if left >= 11 then 3 else if left >= 8 then 2 else if left >= 3 then 1 else 0
  }

  lemma DueStart(s: State)
    requires Inv(s)
    ensures Inv(Run(s, Due(s)))
    ensures Count(Due(s) == [NewEpoch]) + StartsLeft(Left(Run(s, Due(s)))) <= StartsLeft(Left(s))
  {
    assert Shape(s);
    DueProgress(s);
    if s.Now().terminated == Boot(s.epoch) {
      assert Run(s, [NewEpoch]) == Next(s, NewEpoch) by { hide Next; }
      hide Turn, MarksOf;
    } else {
      hide MarksOf, Rank, Run;
      assert Turn()[0] == Ack(ServerDevice);
    }
  }

  lemma {:induction false} FairRunStarts(s: State, blocks: seq<seq<Step>>)
    requires Inv(s) && (forall i :: 0 <= i < |blocks| ==> DrainFree(blocks[i]))
    ensures DueStarts(s, blocks) <= StartsLeft(Left(s)) <= 3
    decreases |blocks|
  {
    assert Shape(s);
    hide Inv, Due, MarksOf, Rank, Next, Run;
    if blocks != [] {
      var s1 := Run(s, blocks[0]);
      RunProgress(s, blocks[0]);
      DueProgress(s1);
      DueStart(s1);
      FairRunStarts(Run(s1, Due(s1)), blocks[1..]);
    }
  }

  // In particular a single request on a node without any is worked off in six rounds, with one
  // start of the node.
  lemma RequestTakesOneStart(s: State, blocks: seq<seq<Step>>)
    requires Inv(s) && Idling(s) && (forall i :: 0 <= i < |blocks| ==> DrainFree(blocks[i]))
    ensures var t := Next(s, RequestDrain);
      && Inv(t) && DueStarts(t, blocks) <= 1
      && (|blocks| >= 6 ==> Inv(Run(t, Fair(t, blocks))) && Idling(Run(t, Fair(t, blocks))))
  {
    var t := Next(s, RequestDrain);
    assert Shape(s);
    NextInv(s, RequestDrain);
    RequestLeft(s);
    hide Inv, Due, MarksOf, Rank, Next, Run, Fair;
    FairRunStarts(t, blocks);
    if |blocks| >= 6 {
      FairRunSettles(t, blocks);
    }
  }

  lemma RequestLeft(s: State)
    requires Inv(s) && Idling(s)
    ensures |Next(s, RequestDrain).versions| > 0 && Left(Next(s, RequestDrain)) == 6
  {
    EditMarks(s.Current(), s.epoch, "", Empty);
    hide MarksOf;
  }
}
