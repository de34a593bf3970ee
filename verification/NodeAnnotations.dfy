/** The drain protocol shares the annotations of the Node with others: it leaves theirs alone. */
module NodeAnnotations {
  import opened NodeDrain

  datatype Entry = Missing | Is(value: Value)

  function Lookup(a: Annotations, name: string): Entry {
    if Foreign(name) in a then Is(a[Foreign(name)]) else Missing
  }

  // What was last written under a name, before being what there was.
  function LastWritten(steps: seq<Step>, name: string, before: Entry): Entry {
    if steps == [] then before
    else
      LastWritten(steps[1..], name,
        if steps[0].Annotate? && steps[0].name == name then Is(steps[0].value) else before)
  }

  lemma EditsKeep(a: Annotations, epoch: nat, name: string)
    ensures Lookup(a[Drain := True], name) == Lookup(a, name)
    ensures Lookup(MarkEdit(a), name) == Lookup(a, name)
    ensures Lookup(RequestShutdownEdit(a), name) == Lookup(a, name)
    ensures Lookup(UncordonEdit(a), name) == Lookup(a, name)
    ensures Lookup(TerminateEdit(a, epoch), name) == Lookup(a, name)
    ensures Lookup(RestartEdit(a), name) == Lookup(a, name)
  {
  }

  lemma UpdateKeeps(s: State, who: Device, v: nat, a: Annotations, outcome: Outcome, bump: bool, pc: Pc, name: string)
    requires v < |s.versions| && Lookup(a, name) == Lookup(s.versions[v], name)
    ensures var t := Update(s, who, v, a, outcome, bump, pc);
      |t.versions| > 0 && Lookup(t.Current(), name) == Lookup(s.Current(), name)
  {
    hide Lookup;
  }

  predicate SameEntry(s: State, t: State, name: string)
    requires |s.versions| > 0
  {
    |t.versions| > 0 && Lookup(t.Current(), name) == Lookup(s.Current(), name)
  }

  lemma MarkKeeps(s: State, who: Device, v: nat, outcome: Outcome, bump: bool, name: string)
    requires v < |s.versions|
    ensures SameEntry(s, ActMark(s, who, v, outcome, bump), name)
  {
    var a := MarkEdit(s.versions[v]);
    EditsKeep(s.versions[v], s.epoch, name);
    hide Lookup, MarkEdit, Update, CommittedVersion;
    UpdateKeeps(s, who, v, a, outcome, bump, Marked(CommittedVersion(s, a, bump)), name);
  }

  lemma TerminateKeeps(s: State, who: Device, v: nat, outcome: Outcome, bump: bool, name: string)
    requires v < |s.versions|
    ensures SameEntry(s, ActTerminate(s, who, v, outcome, bump), name)
  {
    EditsKeep(s.versions[v], s.epoch, name);
    hide Lookup, TerminateEdit, Update;
    var s' := if Commits(s, v, outcome) then s.(marks := s.marks + [s.epoch]) else s;
    UpdateKeeps(s', who, v, TerminateEdit(s.versions[v], s.epoch), outcome, bump, Terminating, name);
    assert s'.Current() == s.Current();
  }

  lemma RestartKeeps(s: State, who: Device, v: nat, outcome: Outcome, bump: bool, name: string)
    requires v < |s.versions|
    ensures SameEntry(s, ActRestart(s, who, v, outcome, bump), name)
  {
    EditsKeep(s.versions[v], s.epoch, name);
    hide Lookup, RestartEdit, Update;
    UpdateKeeps(s, who, v, RestartEdit(s.versions[v]), outcome, bump, Idle, name);
  }

  lemma FetchedKeeps(s: State, who: Device, v: nat, outcome: Outcome, bump: bool, name: string)
    requires v < |s.versions|
    ensures SameEntry(s, ActFetched(s, who, v, outcome, bump), name)
  {
    hide Lookup, MarksOf, ActMark, ActTerminate, ActRestart, WantsDrain, WantsUncordon, WantsTerminate, WantsRestart;
    MarkKeeps(s, who, v, outcome, bump, name);
    TerminateKeeps(s, who, v, outcome, bump, name);
    RestartKeeps(s, who, v, outcome, bump, name);
  }

  lemma ActKeeps(s: State, who: Device, outcome: Outcome, bump: bool, name: string)
    requires |s.versions| > 0
    ensures SameEntry(s, ActNext(s, who, outcome, bump), name)
  {
    hide Lookup, ActFetched, Update, RequestShutdownEdit, UncordonEdit;
    match s.PcOf(who)
    case Fetched(v) =>
      if v < |s.versions| { FetchedKeeps(s, who, v, outcome, bump, name); }
    case Drained(v) =>
      if v < |s.versions| {
        EditsKeep(s.versions[v], s.epoch, name);
        UpdateKeeps(s, who, v, RequestShutdownEdit(s.versions[v]), outcome, bump, Idle, name);
      }
    case Uncordoned(v) =>
      if v < |s.versions| {
        EditsKeep(s.versions[v], s.epoch, name);
        UpdateKeeps(s, who, v, UncordonEdit(s.versions[v]), outcome, bump, Idle, name);
      }
    case _ =>
  }

  // No step but an annotation under that very name changes what is there, or whether anything is.
  lemma StepKeeps(s: State, step: Step, name: string)
    requires |s.versions| > 0
    ensures var t := Next(s, step);
      |t.versions| > 0 && Lookup(t.Current(), name) == LastWritten([step], name, Lookup(s.Current(), name))
  {
    assert [step][1..] == [];
    hide ActNext, MarksOf;
    match step
    case RequestDrain => EditsKeep(s.Current(), s.epoch, name);
    case Act(who, outcome, bump) =>
      if s.Exists(who) { ActKeeps(s, who, outcome, bump, name); }
    case _ =>
  }

  // Over every run, whatever the devices do to their own annotations and whatever versions they were
  // served: a foreign annotation is what others last made of it.
  lemma {:induction false} ForeignKept(s: State, steps: seq<Step>, name: string)
    requires |s.versions| > 0
    ensures var t := Run(s, steps);
      |t.versions| > 0 && Lookup(t.Current(), name) == LastWritten(steps, name, Lookup(s.Current(), name))
    decreases |steps|
  {
    hide Next, Lookup;
    if steps != [] {
      StepKeeps(s, steps[0], name);
      assert [steps[0]][1..] == [];
      ForeignKept(Next(s, steps[0]), steps[1..], name);
    }
  }
}
