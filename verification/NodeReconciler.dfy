/** The reconcile function of the drain protocol, as it edits the annotations map and calls the
    API, connected to the transition system of NodeDrain: every execution of Reconcile, with
    anything happening in between its calls, is a run of that system. */
module NodeReconcile {
  import opened NodeDrain

  // A step taken by who itself.
  predicate IsOwn(step: Step, who: Device) {
    (step.Get? || step.Act?) && step.who == who
  }

  // The steps of who within a run.
  function OwnSteps(steps: seq<Step>, who: Device): seq<Step> {
    if steps == [] then []
    else (if IsOwn(steps[0], who) then [steps[0]] else []) + OwnSteps(steps[1..], who)
  }

  lemma {:induction false} OwnStepsAppend(xs: seq<Step>, ys: seq<Step>, who: Device)
    ensures OwnSteps(xs + ys, who) == OwnSteps(xs, who) + OwnSteps(ys, who)
  {
    if xs == [] {
      assert xs + ys == ys;
    } else {
      assert (xs + ys)[0] == xs[0] && (xs + ys)[1..] == xs[1..] + ys;
      OwnStepsAppend(xs[1..], ys, who);
    }
  }

  // Others' steps leave a device where it stands, or stop the reconcile it is in.
  lemma OthersStep(s: State, step: Step, who: Device)
    requires Inv(s) && s.Exists(who) && !IsOwn(step, who)
    ensures var t := Next(s, step);
      && s.versions <= t.versions && t.colocated == s.colocated
      && (t.PcOf(who) == s.PcOf(who) || t.PcOf(who).Idle?)
      && (t.epoch == s.epoch || !s.IsLocal(who) || t.PcOf(who).Idle?)
  {
    assert Shape(s);
    hide Inv, Shape, MarksOf, ActNext, WellMarked;
    if step.Act? && s.Exists(step.who) {
      OthersAct(s, step.who, step.outcome, step.bump, who);
    }
  }

  predicate Apart(s: State, t: State, who: Device) {
    s.versions <= t.versions && t.colocated == s.colocated && t.epoch == s.epoch && t.PcOf(who) == s.PcOf(who)
  }

  lemma OthersUpdate(
    s: State, other: Device, v: nat, a: Annotations, outcome: Outcome, bump: bool, pc: Pc, who: Device)
    requires v < |s.versions| && other != who
    ensures Apart(s, Update(s, other, v, a, outcome, bump, pc), who)
  {
  }

  lemma OthersTerminate(s: State, other: Device, v: nat, outcome: Outcome, bump: bool, who: Device)
    requires v < |s.versions| && other != who
    ensures Apart(s, ActTerminate(s, other, v, outcome, bump), who)
  {
    hide Update, TerminateEdit;
    var s' := if Commits(s, v, outcome) then s.(marks := s.marks + [s.epoch]) else s;
    OthersUpdate(s', other, v, TerminateEdit(s.versions[v], s.epoch), outcome, bump, Terminating, who);
  }

  lemma OthersFetched(s: State, other: Device, v: nat, outcome: Outcome, bump: bool, who: Device)
    requires v < |s.versions| && other != who
    ensures Apart(s, ActFetched(s, other, v, outcome, bump), who)
  {
    hide MarksOf, MarkEdit, RestartEdit, Update, ActTerminate, CommittedVersion,
         WantsDrain, WantsUncordon, WantsTerminate, WantsRestart;
    var a := MarkEdit(s.versions[v]);
    OthersUpdate(s, other, v, a, outcome, bump, Marked(CommittedVersion(s, a, bump)), who);
    OthersUpdate(s, other, v, RestartEdit(s.versions[v]), outcome, bump, Idle, who);
    OthersTerminate(s, other, v, outcome, bump, who);
  }

  lemma OthersAct(s: State, other: Device, outcome: Outcome, bump: bool, who: Device)
    requires |s.versions| > 0 && other != who
    ensures Apart(s, ActNext(s, other, outcome, bump), who)
  {
    hide ActFetched, RequestShutdownEdit, UncordonEdit;
    match s.PcOf(other)
    case Fetched(v) =>
      if v < |s.versions| { OthersFetched(s, other, v, outcome, bump, who); }
    case _ =>
  }

  // The write that the annotations who has read make it do next.
  predicate Intends(s: State, who: Device, v: nat, a: Annotations) {
    && v < |s.versions|
    && var a0 := s.versions[v];
       var m := MarksOf(a0);
       match s.PcOf(who)
       case Fetched(w) => w == v &&
           if s.IsServer(who) && WantsDrain(m) then a == MarkEdit(a0)
           else if s.IsServer(who) && WantsUncordon(m) then false
           else if s.IsLocal(who) && WantsTerminate(m, s.epoch) then a == TerminateEdit(a0, s.epoch)
           else s.IsLocal(who) && WantsRestart(m, s.epoch) && a == RestartEdit(a0)
       case Drained(w) => w == v && a == RequestShutdownEdit(a0)
       case Uncordoned(w) => w == v && a == UncordonEdit(a0)
       case _ => false
  }

  // What others do in between changes nothing about that intention, unless it stops the reconcile.
  lemma StillIntends(s: State, t: State, who: Device, v: nat, a: Annotations)
    requires Intends(s, who, v, a) && s.versions <= t.versions && t.colocated == s.colocated
    requires t.PcOf(who) == s.PcOf(who) && (t.epoch == s.epoch || !s.IsLocal(who))
    ensures Intends(t, who, v, a)
    ensures forall v' :: AfterWrite(t, who, v') == AfterWrite(s, who, v')
  {
    assert t.versions[v] == s.versions[v];
    hide MarksOf, MarkEdit, TerminateEdit, RestartEdit, RequestShutdownEdit, UncordonEdit;
  }

  // Where a successful write leaves the device.
  function AfterWrite(s: State, who: Device, v': nat): Pc {
    match s.PcOf(who)
    case Fetched(v) =>
      if v < |s.versions| && s.IsServer(who) && WantsDrain(MarksOf(s.versions[v])) then Marked(v')
      else if v < |s.versions| && s.IsLocal(who) && WantsTerminate(MarksOf(s.versions[v]), s.epoch) then Terminating
      else Idle
    case _ => Idle
  }

  // Where a successful call that writes nothing leaves it.
  function AfterCall(pc: Pc): Pc {
    match pc
    case Marked(v) => Drained(v)
    case Fetched(v) => Uncordoned(v)
    case _ => Idle
  }

  predicate Written(s: State, t: State, who: Device, v: nat, a: Annotations, outcome: Outcome, bump: bool, pc: Pc)
    requires |s.versions| > 0
  {
    && t.epoch == s.epoch && t.colocated == s.colocated
    && if Commits(s, v, outcome) then
         && t.versions == Commit(s, a, bump).versions
         && t.PcOf(who) == (if outcome == Acknowledged then pc else Idle)
       else
         t.versions == s.versions && t.PcOf(who) == Idle
  }

  lemma UpdateWrites(s: State, s': State, who: Device, v: nat, a: Annotations, outcome: Outcome, bump: bool, pc: Pc)
    requires |s.versions| > 0 && s'.versions == s.versions && s'.epoch == s.epoch && s'.colocated == s.colocated
    ensures Written(s, Update(s', who, v, a, outcome, bump, pc), who, v, a, outcome, bump, pc)
  {
    hide MarksOf;
  }

  lemma WriteIsAct(s: State, who: Device, v: nat, a: Annotations, outcome: Outcome, bump: bool)
    requires Inv(s) && s.Exists(who) && Intends(s, who, v, a)
    ensures |s.versions| > 0 && Written(s, Next(s, Act(who, outcome, bump)), who, v, a, outcome, bump,
                                        AfterWrite(s, who, CommittedVersion(s, a, bump)))
  {
    assert Shape(s);
    hide Inv, Shape, MarksOf, MarkEdit, TerminateEdit, RestartEdit, RequestShutdownEdit, UncordonEdit, Update, Written,
         CommittedVersion;
    UpdateWrites(s, s, who, v, a, outcome, bump, AfterWrite(s, who, CommittedVersion(s, a, bump)));
    UpdateWrites(s, s.(marks := s.marks + [s.epoch]), who, v, a, outcome, bump,
                 AfterWrite(s, who, CommittedVersion(s, a, bump)));
  }

  lemma IdleActs(s: State, who: Device, outcome: Outcome, bump: bool)
    requires s.PcOf(who).Idle?
    ensures Next(s, Act(who, outcome, bump)) == s
  {
  }

  // The same, as the caller sees it.
  lemma WriteOutcome(s: State, t: State, who: Device, v: nat, a: Annotations, outcome: Outcome, bump: bool, pc: Pc)
    requires |s.versions| > 0 && Written(s, t, who, v, a, outcome, bump, pc)
    ensures t.epoch == s.epoch && t.colocated == s.colocated
    ensures outcome == Acknowledged && v + 1 == |s.versions| ==>
      |t.versions| == CommittedVersion(s, a, bump) + 1 && t.versions[|t.versions| - 1] == a && t.PcOf(who) == pc
    ensures !(outcome == Acknowledged && v + 1 == |s.versions|) ==> t.PcOf(who).Idle?
  {
  }

  lemma GetReads(s: State, who: Device, back: nat)
    requires Inv(s) && s.Exists(who) && s.PcOf(who).Idle?
    ensures var t := Next(s, Get(who, back));
      && t.versions == s.versions && t.epoch == s.epoch && t.colocated == s.colocated
      && t.PcOf(who) == if back < |s.versions| then Fetched(|s.versions| - 1 - back) else Idle
  {
    hide WellMarked, MarksOf;
  }

  datatype Lookup = Found | NotFound | Unknown

  // The API server, the device store and everything else a reconcile talks to.
  class Cluster {
    var st: State
    ghost const start: State
    ghost var trace: seq<Step>
    ghost var failed: bool      // a call made by the reconcile under way has failed

    ghost predicate Valid()
      reads this
    {
      Inv(start) && st == Run(start, trace) && Inv(st)
    }

    constructor (s: State)
      requires Inv(s)
      ensures Valid() && st == s && trace == []
    {
      st := s;
      start := s;
      trace := [];
      failed := false;
    }

    // One step of the system.
    method Take(step: Step)
      requires Valid()
      modifies this
      ensures Valid() && st == Next(old(st), step) && trace == old(trace) + [step] && failed == old(failed)
    {
      NextInv(st, step);
      RunAppend(start, trace, [step]);
      st := Next(st, step);
      trace := trace + [step];
    }

    // Everyone but who takes any number of steps.
    method Interfere(who: Device)
      requires Valid() && st.Exists(who)
      modifies this
      ensures Valid() && old(trace) <= trace && failed == old(failed)
      ensures OwnSteps(trace, who) == OwnSteps(old(trace), who)
      ensures old(st).versions <= st.versions && st.colocated == old(st).colocated
      ensures st.PcOf(who) == old(st).PcOf(who) || st.PcOf(who).Idle?
      ensures st.epoch == old(st).epoch || !st.IsLocal(who) || st.PcOf(who).Idle?
    {
      var steps: seq<Step> := *;
      for i := 0 to |steps|
        invariant Valid() && old(trace) <= trace && failed == old(failed)
        invariant OwnSteps(trace, who) == OwnSteps(old(trace), who)
        invariant old(st).versions <= st.versions && st.colocated == old(st).colocated
        invariant st.PcOf(who) == old(st).PcOf(who) || st.PcOf(who).Idle?
        invariant st.epoch == old(st).epoch || !st.IsLocal(who) || st.PcOf(who).Idle?
      {
        if !IsOwn(steps[i], who) {
          OthersStep(st, steps[i], who);
          OwnStepsAppend(trace, [steps[i]], who);
          Take(steps[i]);
        }
      }
    }

    // Client.Get: any version, or none is found, or an error, or the reconcile is stopped.
    method Get(who: Device) returns (r: Lookup, v: nat, a: Annotations)
      requires Valid() && st.Exists(who) && st.PcOf(who).Idle?
      modifies this
      ensures Valid() && old(trace) <= trace && failed == (old(failed) || r == Unknown)
      ensures exists back :: OwnSteps(trace, who) == OwnSteps(old(trace), who) + [Step.Get(who, back)]
      ensures st.colocated == old(st).colocated
      ensures r == Found ==> st.PcOf(who) == Fetched(v) && v < |st.versions| && a == st.versions[v]
                             && (st.IsLocal(who) ==> st.epoch == old(st).epoch)
      ensures r != Found ==> st.PcOf(who).Idle?
    {
      hide Inv, Next, Run;
      var epoch := st.epoch;
      Interfere(who);
      var back :| 0 <= back;
      if st.IsLocal(who) && st.epoch != epoch {
        back := |st.versions|;
      }
      r := *;
      if back < |st.versions| {
        r := Found;
      } else if r == Found {
        r := Unknown;
      }
      OwnStepsAppend(trace, [Step.Get(who, back)], who);
      GetReads(st, who, back);
      ghost var before := st;
      Take(Step.Get(who, back));
      assert st.versions == before.versions;
      v, a := 0, map[];
      if r == Found {
        v := |st.versions| - 1 - back;
        a := st.versions[v];
      } else if r == Unknown {
        failed := true;
      }
    }

    // Anything that can fail without having an effect: the device store and the client setup.
    method Prepare(who: Device) returns (ok: bool)
      requires Valid() && st.Exists(who) && !st.PcOf(who).Idle?
      modifies this
      ensures Valid() && old(trace) <= trace && failed == (old(failed) || !ok)
      ensures ok ==> st == old(st) && trace == old(trace)
      ensures !ok ==> Grew(old(trace), trace, who) && st.PcOf(who).Idle?
    {
      hide Inv, Next, Run, MarksOf;
      ok := *;
      if !ok {
        FailedActIdles(st, who);
        OwnStepsAppend(trace, [Act(who, Failed, true)], who);
        Take(Act(who, Failed, true));
        failed := true;
      }
    }

    // Client.Update: a compare-and-swap on the version that the caller's object carries.
    method Update(who: Device, v: nat, a: Annotations) returns (ok: bool, v': nat)
      requires Valid() && st.Exists(who) && Intends(st, who, v, a)
      modifies this
      ensures Valid() && old(trace) <= trace && failed == (old(failed) || !ok)
      ensures st.colocated == old(st).colocated && Grew(old(trace), trace, who)
      ensures ok ==> v' < |st.versions| && st.versions[v'] == a && st.PcOf(who) == AfterWrite(old(st), who, v')
                     && (st.IsLocal(who) ==> st.epoch == old(st).epoch)
      ensures !ok ==> st.PcOf(who).Idle?
    {
      hide Inv, Next, Run, MarksOf, Intends, Written, AfterWrite, CommittedVersion;
      Interfere(who);
      var outcome: Outcome := *;
      var bump: bool := *;
      v' := 0;
      ok := false;
      if st.PcOf(who).Idle? {
        outcome := Failed;
        IdleActs(st, who, outcome, bump);
      } else {
        StillIntends(old(st), st, who, v, a);
        WriteIsAct(st, who, v, a, outcome, bump);
        WriteOutcome(st, Next(st, Act(who, outcome, bump)), who, v, a, outcome, bump,
                     AfterWrite(st, who, CommittedVersion(st, a, bump)));
        ok := outcome == Acknowledged && v + 1 == |st.versions|;
      }
      OwnStepsAppend(trace, [Act(who, outcome, bump)], who);
      Take(Act(who, outcome, bump));
      if ok {
        v' := |st.versions| - 1;
      } else {
        failed := true;
      }
    }

    // drain.DrainNode, drain.Uncordon and Shutdown: calls whose only trace is that they were made.
    method Call(who: Device) returns (ok: bool)
      requires Valid() && st.Exists(who)
      requires match st.PcOf(who)
        case Marked(v) => true
        case Terminating => true
        case Fetched(v) => v < |st.versions| && st.IsServer(who) && WantsUncordon(MarksOf(st.versions[v]))
        case _ => false
      modifies this
      ensures Valid() && old(trace) <= trace && failed == (old(failed) || !ok)
      ensures st.colocated == old(st).colocated && Grew(old(trace), trace, who)
      ensures ok ==> old(st).versions <= st.versions && st.PcOf(who) == AfterCall(old(st).PcOf(who))
      ensures !ok ==> st.PcOf(who).Idle?
    {
      hide Inv, Next, Run, MarksOf, WantsUncordon;
      ghost var pc := st.PcOf(who);
      Interfere(who);
      var outcome: Outcome := *;
      if st.PcOf(who).Idle? {
        outcome := Failed;
      }
      ok := outcome == Acknowledged;
      CallIsAct(st, who, outcome);
      OwnStepsAppend(trace, [Act(who, outcome, true)], who);
      Take(Act(who, outcome, true));
      if !ok {
        failed := true;
      }
    }

    // Returning without a further call: nothing in the annotations concerns this device.
    method Rest(who: Device)
      requires Valid() && st.Exists(who) && st.PcOf(who).Fetched?
      requires var v := st.PcOf(who).v; v < |st.versions| && Resting(st, who, MarksOf(st.versions[v]))
      modifies this
      ensures Valid() && old(trace) <= trace && failed == old(failed)
      ensures st.versions == old(st).versions && Grew(old(trace), trace, who) && st.PcOf(who).Idle?
    {
      OwnStepsAppend(trace, [Act(who, Acknowledged, true)], who);
      Take(Act(who, Acknowledged, true));
    }
  }

  // No branch applies.
  predicate Resting(s: State, who: Device, m: Marks) {
    && !(s.IsServer(who) && (WantsDrain(m) || WantsUncordon(m)))
    && !(s.IsLocal(who) && (WantsTerminate(m, s.epoch) || WantsRestart(m, s.epoch)))
  }

  // The own steps of who grew by actions only.
  ghost predicate Grew(before: seq<Step>, after: seq<Step>, who: Device) {
    var xs, ys := OwnSteps(before, who), OwnSteps(after, who);
    xs <= ys && forall i :: |xs| <= i < |ys| ==> ys[i].Act?
  }

  lemma FailedActIdles(s: State, who: Device)
    requires Inv(s) && s.Exists(who)
    ensures Next(s, Act(who, Failed, true)).PcOf(who).Idle?
  {
    assert Shape(s);
    hide Inv, MarksOf;
  }

  lemma CallIsAct(s: State, who: Device, outcome: Outcome)
    requires Inv(s) && s.Exists(who)
    requires match s.PcOf(who)
      case Idle => outcome == Failed
      case Marked(v) => true
      case Terminating => true
      case Fetched(v) => v < |s.versions| && s.IsServer(who) && WantsUncordon(MarksOf(s.versions[v]))
      case _ => false
    ensures var t := Next(s, Act(who, outcome, true));
      && t.versions == s.versions && t.colocated == s.colocated
      && t.PcOf(who) == (if outcome != Acknowledged then Idle else AfterCall(s.PcOf(who)))
  {
    assert Shape(s);
    hide Inv, MarksOf;
  }

  datatype Mode = Server | Agent

  class NodeReconciler {
    const device: Device
    const name: bool            // whether the node carries this device's name
    var mode: Mode
    var rebootID: nat
    const client: Cluster

    ghost predicate Valid()
      reads this, client
    {
      && client.Valid() && client.st.Exists(device)
      && (mode == Server <==> client.st.IsServer(device))
      && (name <==> client.st.IsLocal(device))
      && client.st.PcOf(device).Idle?
      && (name ==> rebootID == client.st.epoch)
    }

    constructor (device: Device, mode: Mode, client: Cluster, rebootID: nat)
      requires client.Valid() && client.st.Exists(device) && client.st.PcOf(device).Idle?
      requires mode == Server <==> client.st.IsServer(device)
      requires client.st.IsLocal(device) ==> rebootID == client.st.epoch
      ensures Valid() && this.client == client && this.device == device
    {
      this.device := device;
      this.mode := mode;
      this.client := client;
      this.rebootID := rebootID;
      this.name := client.st.IsLocal(device);
    }

    // SetupWithManager: a manager of this device starts, with an ID never used before.
    method SetupWithManager()
      requires client.Valid() && client.st.Exists(device)
      requires mode == Server <==> client.st.IsServer(device)
      requires name <==> client.st.IsLocal(device)
      modifies this, client
      ensures Valid()
      ensures client.trace == old(client.trace) + [if name then NewEpoch else ServerRestart]
      ensures name ==> rebootID > old(client.st.epoch)
    {
      client.Take(if name then NewEpoch else ServerRestart);
      if name {
        rebootID := client.st.epoch;
      }
    }

    // The drain branch of a server device.
    method ReconcileDrain(v0: nat, a0: Annotations) returns (err: bool)
      requires Ready(v0, a0) && mode == Server && WantsDrain(MarksOf(a0))
      modifies client
      ensures Ended(old(client.trace)) && err == client.failed
    {
      hide Inv, Next, Run;
      var v, a := v0, a0;
      var ok := client.Prepare(device);
      if !ok {
        return true;
      }
      a := a[Uncordon := True];
      a := a[Restarted := False];
      ok, v := client.Update(device, v, a);
      if !ok {
        return true;
      }
      ok := client.Call(device);
      if !ok {
        return true;
      }
      a := a - {Drain};
      a := a[Shutdown := True];
      ok, v := client.Update(device, v, a);
      return !ok;
    }

    // The uncordon branch of a server device.
    method ReconcileUncordon(v0: nat, a0: Annotations) returns (err: bool)
      requires Ready(v0, a0) && mode == Server && WantsUncordon(MarksOf(a0))
      modifies client
      ensures Ended(old(client.trace)) && err == client.failed
    {
      var v, a := v0, a0;
      var ok := client.Prepare(device);
      if !ok {
        return true;
      }
      ok := client.Call(device);
      if !ok {
        return true;
      }
      a := a - {Uncordon};
      ok, v := client.Update(device, v, a);
      return !ok;
    }

    // The branches for the node that this device is.
    method ReconcileLocal(v0: nat, a0: Annotations) returns (err: bool)
      requires Ready(v0, a0) && !(mode == Server && (WantsDrain(MarksOf(a0)) || WantsUncordon(MarksOf(a0))))
      modifies client
      ensures Ended(old(client.trace)) && err == client.failed
    {
      var v, a := v0, a0;
      var ok;
      if name && At(a, Terminated) != Boot(rebootID) {
        if At(a, Shutdown) == True {
          a := a - {Shutdown};
          a := a[Terminated := Boot(rebootID)];
          ok, v := client.Update(device, v, a);
          if !ok {
            return true;
          }
          ok := client.Call(device);
          return !ok;
        } else if At(a, Restarted) == False && At(a, Terminated) != Empty {
          a := a - {Terminated};
          a := a[Restarted := True];
          ok, v := client.Update(device, v, a);
          return !ok;
        }
      }
      client.Rest(device);
      return false;
    }

    // The reconcile under way has read a as version v, and no call has failed yet.
    ghost predicate Ready(v: nat, a: Annotations)
      reads this, client
    {
      && client.Valid() && client.st.Exists(device) && !client.failed
      && (mode == Server <==> client.st.IsServer(device)) && (name <==> client.st.IsLocal(device))
      && client.st.PcOf(device) == Fetched(v) && v < |client.st.versions| && a == client.st.versions[v]
      && (name ==> rebootID == client.st.epoch)
    }

    // The reconcile is over, having done nothing but its own actions since.
    ghost predicate Ended(before: seq<Step>)
      reads this, client
    {
      && client.Valid() && before <= client.trace && client.st.PcOf(device).Idle?
      && Grew(before, client.trace, device)
    }

    // One reconcile. Its own steps are one read followed by the actions the annotations it read
    // call for, all of them unless a call fails; whatever others do meanwhile, the result is a run.
    method Reconcile() returns (err: bool)
      requires Valid()
      modifies client
      ensures client.Valid() && old(client.trace) <= client.trace && client.st.PcOf(device).Idle?
      ensures OneReconcile(old(client.trace), client.trace, device)
      ensures err == client.failed
    {
      client.failed := false;
      var r, v, a := client.Get(device);
      if r != Found {
        return r == Unknown;
      }
      var ok := client.Prepare(device);
      if !ok {
        return true;
      }
      if mode == Server {
        if At(a, Drain) == True {
          err := ReconcileDrain(v, a);
          return;
        }
        if At(a, Uncordon) == True && At(a, Restarted) == True && At(a, Terminated) == Empty {
          err := ReconcileUncordon(v, a);
          return;
        }
      }
      err := ReconcileLocal(v, a);
    }
  }

  // The own steps of who grew by one read and some actions.
  ghost predicate OneReconcile(before: seq<Step>, after: seq<Step>, who: Device) {
    var xs, ys := OwnSteps(before, who), OwnSteps(after, who);
    && xs < ys && ys[|xs|].Get? && forall i :: |xs| < i < |ys| ==> ys[i].Act?
  }
}
