/** The reconcile function of Apps as it calls the API, connected to the transition system of
    AppFinalizer: every execution, with anything happening in between its calls and any call
    failing, is a run of that system. */
module AppReconcile {
  import opened Resources
  import opened AppFinalizer

  // ---------------------------------------------------------------- what others do in between

  // Others append versions of the App and remove the Kustomization.
  predicate Interfered(s: State, t: State) {
    s.versions <= t.versions && t.lastRead == s.lastRead && t.k in {s.k, Absent}
  }

  lemma OthersInterfere(s: State, step: Step)
    requires !IsOwn(step)
    ensures Interfered(s, Next(s, step))
  {
  }

  // What the reconciler may write or create on account of the version it read stays allowed.
  lemma StillAllowed(s: State, t: State, v: nat, app: App)
    requires Interfered(s, t) && v < |s.versions|
    ensures OwnWrite(s, v, app) ==> OwnWrite(t, v, app)
    ensures OwnCreate(s, v) ==> OwnCreate(t, v)
  {
    assert t.versions[v] == s.versions[v];
  }

  datatype Lookup<T> = Found(value: T) | NotFound | Unknown

  // The API server and everyone else. In a calm cluster nobody interferes and no call fails but
  // for what the server refuses; held says whether a deleted Kustomization takes time to go.
  class Cluster {
    var st: State
    const calm: bool
    const held: bool
    ghost var trace: seq<Step>

    ghost predicate Valid()
      reads this
    {
      NoStaleRead(trace) && st == Run(Start, trace) && Inv(st)
    }

    constructor (calm: bool, held: bool)
      ensures Valid() && trace == [] && this.calm == calm && this.held == held
    {
      st, trace := Start, [];
      this.calm, this.held := calm, held;
    }

    method Take(step: Step)
      requires Valid() && !step.StaleRead?
      modifies this
      ensures Valid() && st == Next(old(st), step) && trace == old(trace) + [step]
    {
      hide Inv, Next;
      NextInv(st, step);
      assert (trace + [step])[..|trace|] == trace;
      st := Next(st, step);
      trace := trace + [step];
    }

    method Interfere()
      requires Valid()
      modifies this
      ensures Valid() && old(trace) <= trace && Interfered(old(st), st)
      ensures calm ==> st == old(st)
    {
      hide Next;
      var steps: seq<Step> := *;
      if calm {
        steps := [];
      }
      for i := 0 to |steps|
        invariant Valid() && old(trace) <= trace && Interfered(old(st), st)
        invariant calm ==> st == old(st)
      {
        if !IsOwn(steps[i]) {
          OthersInterfere(st, steps[i]);
          Take(steps[i]);
        }
      }
    }

    // Client.Get of the App: a version not older than the one served last.
    method GetApp() returns (r: Lookup<App>, v: nat)
      requires Valid()
      modifies this
      ensures Valid() && old(trace) <= trace
      ensures !r.Unknown? ==> v == st.lastRead < |st.versions| && (r.NotFound? <==> st.At(v).None?)
      ensures r.Found? ==> st.At(v) == Some(r.value)
      ensures calm ==> !r.Unknown? && st == old(st).(lastRead := v) && v == |st.versions| - 1
    {
      hide Run;
      Interfere();
      v := *;
      if calm {
        v := |st.versions| - 1;
      }
      if v < st.lastRead || v >= |st.versions| {
        return Unknown, v;
      }
      Take(Read(v));
      r := if st.At(v).None? then NotFound else Found(st.At(v).value);
    }

    // Client.Update, or Status().Update, of the App read as version v.
    method UpdateApp(v: nat, app: App) returns (ok: bool)
      requires Valid() && v < |st.versions| && OwnWrite(st, v, app)
      modifies this
      ensures Valid() && old(trace) <= trace
      ensures calm && v == |old(st).versions| - 1 ==>
        ok == Commits(old(st), v, app, Acknowledged) && st == if ok then Append(old(st), Settle(app)) else old(st)
    {
      hide Run, Inv, Settle;
      Interfere();
      StillAllowed(old(st), st, v, app);
      var outcome: Outcome := *;
      if calm {
        outcome := Acknowledged;
      }
      ok := outcome == Acknowledged && Commits(st, v, app, outcome);
      Take(WriteApp(v, app, outcome));
    }

    // Client.Get of the Kustomization, which is not cached.
    method GetKustomization() returns (r: Lookup<()>)
      requires Valid()
      modifies this
      ensures Valid() && old(trace) <= trace && Interfered(old(st), st)
      ensures r.NotFound? ==> st.k == Absent
      ensures calm ==> st == old(st) && r == if st.k == Absent then NotFound else Found(())
    {
      Interfere();
      var failed: bool := *;
      r := if failed && !calm then Unknown else if st.k == Absent then NotFound else Found(());
    }

    method CreateKustomization(v: nat) returns (ok: bool)
      requires Valid() && v < |st.versions| && OwnCreate(st, v)
      modifies this
      ensures Valid() && old(trace) <= trace
      ensures old(st).versions <= st.versions && st.lastRead == old(st).lastRead
      ensures calm && old(st).k == Absent ==> ok && st == old(st).(k := Present)
    {
      hide Run, Inv;
      Interfere();
      StillAllowed(old(st), st, v, App(true, true, true, true, true));
      var outcome: Outcome := *;
      if calm {
        outcome := Acknowledged;
      }
      ok := outcome == Acknowledged && st.k == Absent;
      Take(Step.CreateKustomization(v, outcome));
    }

    method DeleteKustomization() returns (r: Lookup<()>)
      requires Valid()
      modifies this
      ensures Valid() && old(trace) <= trace
      ensures old(st).versions <= st.versions && st.lastRead == old(st).lastRead
      ensures r.NotFound? ==> st.k == Absent
      ensures calm ==> !r.Unknown? && (r.NotFound? <==> old(st).k == Absent)
      ensures calm ==> st == old(st).(k := AfterDelete(old(st).k, held))
    {
      hide Run, Inv;
      Interfere();
      var outcome: Outcome := *;
      if calm {
        outcome := Acknowledged;
      }
      r := if outcome != Acknowledged then Unknown else if st.k == Absent then NotFound else Found(());
      Take(Step.DeleteKustomization(held, outcome));
    }

    // Any other call, which neither touches the App nor the Kustomization's existence.
    method Other() returns (ok: bool)
      requires Valid()
      modifies this
      ensures Valid() && old(trace) <= trace && Interfered(old(st), st)
      ensures calm ==> ok && st == old(st)
    {
      Interfere();
      ok := *;
      if calm {
        ok := true;
      }
    }
  }

  // The Kustomization after an acknowledged delete.
  function AfterDelete(k: Presence, held: bool): Presence {
    if k == Present then (if held then Terminating else Absent) else k
  }

  // ---------------------------------------------------------------- the reconciler

  // What one reconcile makes of an App and its Kustomization when nothing disturbs it.
  function Reconciled(a: Option<App>, k: Presence, held: bool): (Option<App>, Presence) {
    if a.None? || !a.value.kustomization then (a, k)
    else if !a.value.finalizer then
      (if a.value.deleting then a else Some(a.value.(finalizer := true)), k)
    else if a.value.deleting then
      if k == Absent then (Settle(a.value.(finalizer := false)), k) else (a, AfterDelete(k, held))
    else (a, Installed(a.value, k, held))
  }

  function Installed(a: App, k: Presence, held: bool): Presence {
    if !a.enabled then AfterDelete(k, held) else if k == Absent then Present else k
  }

  // n undisturbed reconciles, each followed by the end of a Kustomization that is terminating.
  function Rounds(n: nat, a: Option<App>, k: Presence, held: bool): (Option<App>, Presence) {
    if n == 0 then (a, k)
    else
      var (a1, k1) := Rounds(n - 1, a, k, held);
      var (a2, k2) := Reconciled(a1, k1, held);
      (a2, if k2 == Terminating then Absent else k2)
  }

  // Once users are done, an App that is being deleted loses the finalizer within two rounds, and
  // with it goes if no other holds it - exactly when it still specifies a Kustomization. Otherwise
  // no number of rounds lets it go.
  lemma {:induction false} DeletionCompletes(n: nat, a: App, k: Presence, held: bool)
    requires a.deleting && a.finalizer && n >= 2
    ensures var (a', k') := Rounds(n, Some(a), k, held);
      && (a' == if a.kustomization then Settle(a.(finalizer := false)) else Some(a))
      && (a.kustomization ==> k' == Absent)
  {
    if n > 2 {
      DeletionCompletes(n - 1, a, k, held);
    } else {
      var (a1, k1) := Rounds(1, Some(a), k, held);
      assert Rounds(0, Some(a), k, held) == (Some(a), k);
      assert a.kustomization ==> k1 == Absent;
    }
  }

  // An App that is not being deleted carries the finalizer after one round, and from the third on
  // its Kustomization is there exactly if the App is enabled.
  lemma {:induction false} InstallationConverges(n: nat, a: App, k: Presence, held: bool)
    requires a.kustomization && !a.deleting && n >= 1
    ensures Rounds(n, Some(a), k, held).0 == Some(a.(finalizer := true))
    ensures n >= 3 || (n == 2 && a.finalizer) ==> Rounds(n, Some(a), k, held).1 == if a.enabled then Present else Absent
  {
    assert Rounds(0, Some(a), k, held) == (Some(a), k);
    if n > 1 {
      InstallationConverges(n - 1, a, k, held);
    }
    if n == 3 {
      RoundSettles(a.(finalizer := true), Rounds(1, Some(a), k, held).1, held);
      InstallationConverges(1, a, k, held);
    }
  }

  lemma RoundSettles(a: App, k: Presence, held: bool)
    requires a.kustomization && a.finalizer && !a.deleting
    ensures Rounds(2, Some(a), k, held) == (Some(a), if a.enabled then Present else Absent)
  {
    assert Rounds(0, Some(a), k, held) == (Some(a), k);
    var (a1, k1) := Rounds(1, Some(a), k, held);
    assert a1 == Some(a) && k1 != Terminating;
  }

  // An App that specifies no Kustomization is left alone, and so is one that lost the finalizer and is
  // kept by others.
  lemma {:induction false} Unmanaged(n: nat, a: Option<App>, k: Presence, held: bool)
    requires a.None? || !a.value.kustomization || (a.value.deleting && !a.value.finalizer)
    ensures Rounds(n, a, k, held).0 == a && Rounds(n, a, k, held).1 in {k, Absent}
    ensures k != Terminating ==> Rounds(n, a, k, held).1 == k
  {
    if n > 0 {
      Unmanaged(n - 1, a, k, held);
    }
  }

  class AppReconciler {
    const client: Cluster

    constructor (client: Cluster)
      ensures this.client == client
    {
      this.client := client;
    }

    method DeleteKustomization() returns (deleted: bool, err: bool)
      requires client.Valid()
      modifies client
      ensures client.Valid() && old(client.trace) <= client.trace
      ensures old(client.st).versions <= client.st.versions && client.st.lastRead == old(client.st).lastRead
      ensures deleted && !err ==> client.st.k == Absent
      ensures client.calm ==> !err && (deleted <==> old(client.st).k == Absent)
      ensures client.calm ==> client.st == old(client.st).(k := AfterDelete(old(client.st).k, client.held))
    {
      hide Run, Inv;
      var r := client.GetKustomization();
      if !r.Found? {
        return r.NotFound?, r.Unknown?;
      }
      r := client.DeleteKustomization();
      if r.NotFound? {
        return true, false;
      }
      return false, r.Unknown?;
    }

    // v and a are the version read and the App in it.
    method ReconcileKustomization(v: nat, a: App) returns (err: bool)
      requires client.Valid() && v == client.st.lastRead && client.st.At(v) == Some(a)
      requires a.finalizer && !a.deleting
      modifies client
      ensures client.Valid() && old(client.trace) <= client.trace
      ensures client.calm ==> !err
      ensures client.calm ==> client.st == old(client.st).(k := Installed(a, old(client.st).k, client.held))
      ensures client.st.lastRead == v && client.st.At(v) == Some(a)
    {
      hide Run, Inv;
      var r := client.GetKustomization();
      if r.Unknown? {
        return true;
      }
      var ok := true;
      if a.enabled {
        if r.Found? {
          var changed: bool := *;
          if changed {
            ok := client.Other();
          }
        } else {
          ok := client.CreateKustomization(v);
        }
      } else if r.Found? {
        r := client.DeleteKustomization();
        ok := r.Found?;
      }
      err := !ok;
    }

    method Reconcile() returns (err: bool)
      requires client.Valid()
      modifies client
      ensures client.Valid() && old(client.trace) <= client.trace
      ensures client.calm ==>
        (client.st.Current(), client.st.k) == Reconciled(old(client.st).Current(), old(client.st).k, client.held)
      ensures client.calm ==>
        (err <==> var a := old(client.st).Current();
          a.Some? && a.value.kustomization && !a.value.finalizer && a.value.deleting)
    {
      hide Run, Inv;
      var r, v := client.GetApp();
      if !r.Found? {
        return r.Unknown?;
      }
      var a := r.value;
      if !a.kustomization {
        return false;
      }
      if !a.finalizer {
        a := a.(finalizer := true);
        var ok := client.UpdateApp(v, a);
        return !ok;
      }
      if a.deleting {
        var deleted;
        deleted, err := DeleteKustomization();
        if err || !deleted {
          return;
        }
        a := a.(finalizer := false);
        var ok := client.UpdateApp(v, a);
        return !ok;
      }
      err := ReconcileInstallation(v, a);
    }

    // The Secret, the Kustomization, and the status in the end whatever came of them.
    method ReconcileInstallation(v: nat, a: App) returns (err: bool)
      requires client.Valid() && v == client.st.lastRead && client.st.At(v) == Some(a)
      requires a.finalizer && !a.deleting && (client.calm ==> v == |client.st.versions| - 1)
      modifies client
      ensures client.Valid() && old(client.trace) <= client.trace
      ensures client.calm ==> !err && client.st.Current() == Some(a)
      ensures client.calm ==> client.st.k == Installed(a, old(client.st).k, client.held)
    {
      hide Run, Inv;
      var ok := client.Other();
      if !ok {
        return true;
      }
      err := ReconcileKustomization(v, a);
      if !err && a.enabled {
        ok := client.Other();
        err := !ok;
      }
      var changed: bool := *;
      if changed {
        ok := client.UpdateApp(v, a);
      }
    }
  }
}
