/** The finalizer protocol of an App and its Kustomization, as a transition system over the versions
    of the App. Every step is total: one that is not possible leaves the state alone, so each
    sequence of steps is a run. */
module AppFinalizer {
  import opened Resources

  // other stands for the finalizers of other controllers.
  datatype App = App(kustomization: bool, enabled: bool, finalizer: bool, other: bool, deleting: bool)

  datatype Presence = Absent | Present | Terminating

  // What a write does: it happens and is acknowledged, it does not happen, or it happens but the
  // caller sees an error.
  datatype Outcome = Acknowledged | Failed | Unacknowledged

  datatype State = State(
    versions: seq<Option<App>>,    // None while there is no App
    k: Presence,
    lastRead: nat)                 // newest version the reconciler has been served
  {
    function Current(): Option<App> {
      if versions == [] then None else versions[|versions| - 1]
    }

    function At(v: nat): Option<App> {
      if v < |versions| then versions[v] else None
    }
  }

  const Start := State([None], Absent, 0)

  // The App exists and carries the finalizer.
  predicate Guarded(a: Option<App>) { a.Some? && a.value.finalizer }

  // An App whose deletion nothing holds up is gone.
  function Settle(a: App): Option<App> {
    if a.deleting && !a.finalizer && !a.other then None else Some(a)
  }

  datatype Step =
    | UserCreate(app: App)
    | UserEdit(app: App)
    | UserDelete
    | OthersDone
    | KustomizationGone
    | Read(v: nat)
    | StaleRead(v: nat)
    | WriteApp(v: nat, app: App, outcome: Outcome)
    | CreateKustomization(v: nat, outcome: Outcome)
    | DeleteKustomization(held: bool, outcome: Outcome)

  predicate IsOwn(step: Step) {
    step.Read? || step.StaleRead? || step.WriteApp? || step.CreateKustomization? || step.DeleteKustomization?
  }

  function Append(s: State, a: Option<App>): State { s.(versions := s.versions + [a]) }

  // What the API server lets a user change: nothing but the reconciler removes its finalizer, and
  // none is added to an App that is being deleted.
  predicate UserMayEdit(a: App, b: App) {
    && b.deleting == a.deleting
    && (a.finalizer ==> b.finalizer)
    && (a.deleting ==> (b.finalizer ==> a.finalizer) && (b.other ==> a.other))
  }

  // What the reconciler writes into the App it read last: the finalizer, once the Kustomization is
  // gone its removal, or only a status.
  predicate OwnWrite(s: State, v: nat, app: App) {
    && v == s.lastRead && s.At(v).Some?
    && var a := s.At(v).value;
      || app == a
      || (!a.finalizer && app == a.(finalizer := true))
      || (a.finalizer && a.deleting && s.k == Absent && app == a.(finalizer := false))
  }

  // The write takes place when the App is still as it was read and the server accepts it.
  predicate Commits(s: State, v: nat, app: App, outcome: Outcome) {
    && outcome != Failed && v + 1 == |s.versions| && s.At(v).Some?
    && (s.At(v).value.deleting && app.finalizer ==> s.At(v).value.finalizer)
  }

  // The reconciler creates a Kustomization for an App it read with its finalizer and not deleted.
  predicate OwnCreate(s: State, v: nat) {
    v == s.lastRead && Guarded(s.At(v)) && !s.At(v).value.deleting
  }

  function Next(s: State, step: Step): State {
    match step
    case UserCreate(app) =>
      if s.Current().None? && !app.deleting then Append(s, Some(app)) else s
    case UserEdit(app) =>
      if s.Current().Some? && UserMayEdit(s.Current().value, app) then Append(s, Settle(app)) else s
    case UserDelete =>
      if s.Current().Some? then Append(s, Settle(s.Current().value.(deleting := true))) else s
    case OthersDone =>
      if s.Current().Some? then Append(s, Settle(s.Current().value.(other := false))) else s
    case KustomizationGone => s.(k := Absent)
    case Read(v) => if s.lastRead <= v < |s.versions| then s.(lastRead := v) else s
    case StaleRead(v) => if v < |s.versions| then s.(lastRead := v) else s
    case WriteApp(v, app, outcome) =>
      if OwnWrite(s, v, app) && Commits(s, v, app, outcome) then Append(s, Settle(app)) else s
    case CreateKustomization(v, outcome) =>
      if OwnCreate(s, v) && outcome != Failed && s.k == Absent then s.(k := Present) else s
    case DeleteKustomization(held, outcome) =>
      if outcome == Failed || s.k != Present then s else s.(k := if held then Terminating else Absent)
  }

  function Run(s: State, steps: seq<Step>): State {
    if steps == [] then s else Next(Run(s, steps[..|steps| - 1]), steps[|steps| - 1])
  }

  lemma {:induction false} RunAppend(s: State, xs: seq<Step>, ys: seq<Step>)
    ensures Run(s, xs + ys) == Run(Run(s, xs), ys)
    decreases |ys|
  {
    if ys == [] {
      assert xs + ys == xs;
    } else {
      assert (xs + ys)[..|xs + ys| - 1] == xs + ys[..|ys| - 1];
      RunAppend(s, xs, ys[..|ys| - 1]);
    }
  }

  // ---------------------------------------------------------------- no orphan

  // Whatever version the reconciler may still be served: if it calls for a Kustomization, the
  // App is there and carries the finalizer.
  ghost predicate Inv(s: State) {
    && s.lastRead < |s.versions|
    && (s.k != Absent ==> Guarded(s.Current()))
    && forall v {:trigger s.versions[v]} :: s.lastRead <= v < |s.versions| ==>
         Guarded(s.versions[v]) && !s.versions[v].value.deleting ==> Guarded(s.Current())
  }

  lemma AppendInv(s: State, a: Option<App>)
    requires Inv(s) && (Guarded(s.Current()) ==> Guarded(a))
    ensures Inv(Append(s, a))
  {
  }

  lemma RemovalInv(s: State, v: nat, app: App)
    requires Inv(s) && OwnWrite(s, v, app) && v + 1 == |s.versions| && s.At(v).value.finalizer && !app.finalizer
    ensures Inv(Append(s, Settle(app)))
  {
  }

  lemma NextInv(s: State, step: Step)
    requires Inv(s) && !step.StaleRead?
    ensures Inv(Next(s, step))
  {
    match step {
      case UserCreate(app) =>
        if s.Current().None? {
          AppendInv(s, Some(app));
        }
      case UserEdit(app) =>
        if s.Current().Some? && UserMayEdit(s.Current().value, app) {
          AppendInv(s, Settle(app));
        }
      case UserDelete =>
        if s.Current().Some? {
          AppendInv(s, Settle(s.Current().value.(deleting := true)));
        }
      case OthersDone =>
        if s.Current().Some? {
          AppendInv(s, Settle(s.Current().value.(other := false)));
        }
      case WriteApp(v, app, outcome) =>
        if OwnWrite(s, v, app) && Commits(s, v, app, outcome) {
          if s.At(v).value.finalizer && !app.finalizer {
            RemovalInv(s, v, app);
          } else {
            AppendInv(s, Settle(app));
          }
        }
      case _ =>
    }
  }

  predicate NoStaleRead(steps: seq<Step>) { forall i :: 0 <= i < |steps| ==> !steps[i].StaleRead? }

  lemma {:induction false} RunInv(s: State, steps: seq<Step>)
    requires Inv(s) && NoStaleRead(steps)
    ensures Inv(Run(s, steps))
    decreases |steps|
  {
    hide Inv, Next;
    if steps != [] {
      RunInv(s, steps[..|steps| - 1]);
      NextInv(Run(s, steps[..|steps| - 1]), steps[|steps| - 1]);
    }
  }

  // A Kustomization only exists while its App exists and carries the finalizer.
  predicate NoneOrphaned(s: State) { s.k != Absent ==> Guarded(s.Current()) }

  // The step that leaves an orphan: creating a Kustomization for an App that has been deleted, or
  // lost the finalizer, since it was read.
  predicate Orphans(s: State, step: Step) {
    && step.CreateKustomization? && step.outcome != Failed && s.k == Absent
    && OwnCreate(s, step.v) && !Guarded(s.Current())
  }

  // No other step does, whatever version of the App was read.
  lemma StepOrphans(s: State, step: Step)
    requires NoneOrphaned(s)
    ensures NoneOrphaned(Next(s, step)) <==> !Orphans(s, step)
  {
  }

  // Every state of a run, and every step of it.
  predicate AlwaysNoneOrphaned(s: State, steps: seq<Step>) {
    forall n :: 0 <= n <= |steps| ==> NoneOrphaned(Run(s, steps[..n]))
  }

  predicate NeverOrphans(s: State, steps: seq<Step>) {
    forall n :: 0 <= n < |steps| ==> !Orphans(Run(s, steps[..n]), steps[n])
  }

  lemma RunNext(s: State, most: seq<Step>, step: Step)
    ensures Run(s, most + [step]) == Next(Run(s, most), step)
  {
    hide Next;
    assert (most + [step])[..|most|] == most;
  }

  lemma AlwaysNext(s: State, most: seq<Step>, step: Step)
    ensures AlwaysNoneOrphaned(s, most + [step]) <==>
      AlwaysNoneOrphaned(s, most) && NoneOrphaned(Next(Run(s, most), step))
  {
    hide NoneOrphaned, Next, Run;
    var steps := most + [step];
    RunNext(s, most, step);
    assert forall n :: 0 <= n <= |most| ==> steps[..n] == most[..n];
    assert steps[..|steps|] == steps && steps[..|most|] == most;
  }

  lemma NeverNext(s: State, most: seq<Step>, step: Step)
    ensures NeverOrphans(s, most + [step]) <==> NeverOrphans(s, most) && !Orphans(Run(s, most), step)
  {
    hide Orphans, Run;
    var steps := most + [step];
    assert forall n :: 0 <= n < |most| ==> steps[..n] == most[..n] && steps[n] == most[n];
    assert steps[|most|] == step && steps[..|most|] == most;
  }

  // So a run, reads that go backwards included, is free of orphans throughout if and only if no
  // Kustomization is ever created for an App that is not guarded at that moment.
  lemma {:induction false} OrphanFree(s: State, steps: seq<Step>)
    requires NoneOrphaned(s)
    ensures AlwaysNoneOrphaned(s, steps) <==> NeverOrphans(s, steps)
    decreases |steps|
  {
    if steps != [] {
      hide NoneOrphaned, Orphans, Next, Run, NeverOrphans;
      var most, step := steps[..|steps| - 1], steps[|steps| - 1];
      assert steps == most + [step];
      AlwaysNext(s, most, step);
      NeverNext(s, most, step);
      OrphanFree(s, most);
      if AlwaysNoneOrphaned(s, most) {
        assert most[..|most|] == most;
        StepOrphans(Run(s, most), step);
      }
    }
  }

  // While reads of the App do not go backwards, whatever users and other controllers do in
  // between, that never happens.
  lemma NoOrphan(steps: seq<Step>)
    requires NoStaleRead(steps)
    ensures AlwaysNoneOrphaned(Start, steps) && NeverOrphans(Start, steps)
  {
    forall n | 0 <= n <= |steps| ensures NoneOrphaned(Run(Start, steps[..n])) {
      RunInv(Start, steps[..n]);
    }
    OrphanFree(Start, steps);
  }

  // One read that goes backwards is enough, for any App that is to be installed: the reconciler
  // adds the finalizer; the user deletes the App and the others let it go; the reconciler removes the
  // finalizer, and with it the App; and then it is served the App as it once was.
  lemma StaleReadOrphans(app: App) returns (steps: seq<Step>)
    requires app.kustomization && app.enabled && !app.deleting
    ensures var s := Run(Start, steps); s.k == Present && s.Current().None?
    ensures forall i :: 0 <= i < |steps| - 2 ==> !steps[i].StaleRead?
  {
    hide Run, Next;
    var kept := app.(finalizer := true);
    var held := kept.(deleting := true, other := false);
    steps := [UserCreate(app), Read(1), WriteApp(1, kept, Acknowledged)];
    var s1 := RunThree(Start, steps[0], steps[1], steps[2]);
    FinalizerAdded(app);
    var more := [UserDelete, OthersDone, Read(4)];
    var s2 := RunThree(s1, more[0], more[1], more[2]);
    DeletionHeld(s1, kept);
    RunAppend(Start, steps, more);
    steps := steps + more;
    var gone := held.(finalizer := false);
    var last := [WriteApp(4, gone, Acknowledged), StaleRead(2), CreateKustomization(2, Acknowledged)];
    var s3 := RunThree(s2, last[0], last[1], last[2]);
    OrphanLeft(s2, kept, held);
    RunAppend(Start, steps, last);
    steps := steps + last;
  }

  lemma FinalizerAdded(app: App)
    requires !app.deleting
    ensures var kept := app.(finalizer := true);
      Next(Next(Next(Start, UserCreate(app)), Read(1)), WriteApp(1, kept, Acknowledged))
      == State([None, Some(app), Some(kept)], Absent, 1)
  {
  }

  lemma DeletionHeld(s: State, kept: App)
    requires |s.versions| == 3 && s.lastRead <= 4 && kept.finalizer && s.Current() == Some(kept)
    ensures var deleted := kept.(deleting := true);
      Next(Next(Next(s, UserDelete), OthersDone), Read(4))
      == State(s.versions + [Some(deleted), Some(deleted.(other := false))], s.k, 4)
  {
  }

  lemma OrphanLeft(s: State, kept: App, held: App)
    requires |s.versions| == 5 && s.k == Absent && s.lastRead == 4
    requires held.finalizer && held.deleting && !held.other && s.Current() == Some(held)
    requires s.versions[2] == Some(kept) && kept.finalizer && !kept.deleting
    ensures
      Next(Next(Next(s, WriteApp(4, held.(finalizer := false), Acknowledged)), StaleRead(2)),
           CreateKustomization(2, Acknowledged))
      == State(s.versions + [None], Present, 2)
  {
  }

  lemma RunThree(s: State, a: Step, b: Step, c: Step) returns (t: State)
    ensures t == Next(Next(Next(s, a), b), c) == Run(s, [a, b, c])
  {
    hide Next;
    t := Next(Next(Next(s, a), b), c);
    assert [a, b, c][..2] == [a, b] && [a, b][..1] == [a] && [a][..0] == [];
    assert Run(s, [a]) == Next(s, a);
    assert Run(s, [a, b]) == Next(Next(s, a), b);
  }
}
