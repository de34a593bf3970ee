/** The supervisor of one process: it never runs two at once and does not start them faster than the
    cooldown allows. Processes exit when they like, and the goroutine that watches a process stamps
    its end some time after; both happen in Elapse, which every method lets in where time passes. */
module Runner {
  import opened Command
  import opened Sets

  const COOLDOWN: int := 1_000_000_000
  const MILLISECOND: int := 1_000_000

  class Proc {
    const cmd: CommandSpec
    var running: bool

    constructor (cmd: CommandSpec)
      ensures this.cmd == cmd && running
    {
      this.cmd := cmd;
      running := true;
    }
  }

  datatype Outcome = Started | AlreadyRunning | Refused(duration: nat)

  // Launches are at least a cooldown apart.
  ghost predicate Spaced(launches: seq<int>) {
    forall i :: 0 < i < |launches| ==> launches[i] >= launches[i - 1] + COOLDOWN
  }

  lemma {:induction false} SpacedApart(launches: seq<int>, i: nat, j: nat)
    requires Spaced(launches) && i <= j < |launches|
    ensures launches[j] >= launches[i] + (j - i) * COOLDOWN
    decreases j - i
  {
    if i < j {
      SpacedApart(launches, i, j - 1);
    }
  }

  lemma SpacedNext(launches: seq<int>, t: int)
    requires Spaced(launches) && (launches != [] ==> launches[|launches| - 1] + COOLDOWN <= t)
    ensures Spaced(launches + [t])
  {
  }

  // Hence no period sees more launches than one, and one for each full cooldown in it.
  lemma LaunchRate(launches: seq<int>, i: nat, n: nat, from: int, until: int)
    requires Spaced(launches) && 0 < n && i + n <= |launches|
    requires forall k :: i <= k < i + n ==> from <= launches[k] <= until
    ensures n <= 1 + (until - from) / COOLDOWN
  {
    SpacedApart(launches, i, i + n - 1);
    assert from <= launches[i] && launches[i + n - 1] <= until;
  }

  // When the comparison of texts is one of commands: one of them is unmistakable, or both are plain.
  predicate ToldApart(c: CommandSpec, d: CommandSpec) {
    Unmistakable(c) || Unmistakable(d) || (Plain(Parts(c)) && Plain(Parts(d)))
  }

  lemma SameText(running: CommandSpec, asked: CommandSpec)
    requires Text(running) == Text(asked) && ToldApart(running, asked)
    ensures running == asked
  {
    TextIdentifies(running);
    TextIdentifies(asked);
    if Plain(Parts(asked)) {
      PlainTexts(asked);
    }
  }

  class Runner {
    var proc: Proc?
    var terminated: int
    // The world: the clock, all processes ever started, those whose end was not stamped yet, and
    // the times of the launches.
    var now: int
    var procs: set<Proc>
    var watched: set<Proc>
    var launches: seq<int>

    // Only proc may be alive.
    ghost predicate Valid()
      reads this, procs
    {
      && (proc != null ==> proc in procs)
      && (forall p :: p in procs && p.running ==> p == proc)
      && watched <= procs
      && Spaced(launches)
      && (launches != [] ==> launches[|launches| - 1] <= terminated)
      && terminated <= now
    }

    ghost predicate Alive()
      reads this, procs
    {
      exists p :: p in procs && p.running
    }

    constructor (start: int)
      requires start >= COOLDOWN
      ensures Valid() && proc == null && procs == {} && launches == [] && !Alive()
      ensures terminated + COOLDOWN <= now == start
    {
      proc := null;
      terminated := 0;
      now, procs, watched, launches := start, {}, {}, [];
    }

    // Time passes: processes may exit, and the ends of exited ones may be stamped.
    method Elapse(atLeast: nat)
      modifies this`now, this`terminated, this`watched, procs
      ensures now >= old(now) + atLeast
      ensures watched <= old(watched)
      ensures terminated == old(terminated) || (watched < old(watched) && old(now) <= terminated <= now)
      ensures forall p :: p in procs && p.running ==> old(p.running)
      ensures Alive() ==> old(Alive())
      ensures old(Valid()) ==> Valid()
    {
      var n :| 0 <= n;
      while n > 0
        invariant now >= old(now)
        invariant watched <= old(watched)
        invariant terminated == old(terminated) || (watched < old(watched) && old(now) <= terminated <= now)
        invariant forall p :: p in procs && p.running ==> old(p.running)
      {
        n := n - 1;
        var tick :| 0 <= tick;
        now := now + tick;
        var what: int := *;
        if what == 0 {
          if exited: Proc :| exited in procs {
            exited.running := false;
          }
        } else if what == 1 {
          if ended: Proc :| ended in watched && ended in procs && !ended.running {
            watched := watched - {ended};
            terminated := now;
          }
        }
      }
      now := now + atLeast;
    }

    // Signals the process and waits for its end, at the latest that of the kill after the grace
    // period.
    method StopProc()
      requires Valid() && proc != null
      modifies this`now, this`terminated, this`watched, procs
      ensures Valid() && !Alive()
      ensures now >= old(now) && watched <= old(watched) && terminated >= old(terminated)
      ensures terminated == old(terminated) || watched < old(watched)
    {
      Elapse(0);
      if proc.running {
        proc.running := false;
      }
    }

    method Stop()
      requires Valid()
      modifies this`proc, this`now, this`terminated, this`watched, procs
      ensures Valid() && proc == null && !Alive()
      ensures now >= old(now) && watched <= old(watched) && terminated >= old(terminated)
      ensures terminated == old(terminated) || watched < old(watched)
    {
      if proc != null {
        StopProc();
        proc := null;
      }
    }

    // StartProcess: from now on the process may exit, though nothing refers to it yet.
    method Spawn(cmd: CommandSpec) returns (p: Proc)
      requires Valid() && proc == null
      requires launches != [] ==> launches[|launches| - 1] + COOLDOWN <= now
      modifies this`now, this`terminated, this`watched, this`procs, this`launches, procs
      ensures fresh(p) && p.cmd == cmd && procs == old(procs) + {p}
      ensures forall q :: q in procs && q.running ==> q == p
      ensures watched <= old(watched) && terminated <= now
      ensures |launches| == |old(launches)| + 1 && launches[..|old(launches)|] == old(launches) && Spaced(launches)
      ensures old(now) <= launches[|old(launches)|] <= now
    {
      hide Spaced;
      Elapse(0);
      SpacedNext(launches, now);
      p := new Proc(cmd);
      procs := procs + {p};
      launches := launches + [now];
      Elapse(0);
    }

    // And what follows it: the stamp, and the watching goroutine.
    method Launch(cmd: CommandSpec)
      requires Valid() && proc == null
      requires launches != [] ==> launches[|launches| - 1] + COOLDOWN <= now
      modifies this, procs
      ensures Valid() && now >= old(now)
      ensures proc != null && fresh(proc) && proc.cmd == cmd && procs == old(procs) + {proc}
      ensures |launches| == |old(launches)| + 1 && launches[..|old(launches)|] == old(launches)
      ensures old(now) <= launches[|old(launches)|] && watched <= old(watched) + {proc}
    {
      hide Spaced;
      var p := Spawn(cmd);
      terminated := now;
      proc := p;
      watched := watched + {p};
      Elapse(50 * MILLISECOND);
    }

    // Refused is the CooldownError. The clock is read once, at some time from the call on.
    method Start(cmd: CommandSpec) returns (r: Outcome)
      requires Valid()
      modifies this, procs
      ensures Valid() && now >= old(now)
      ensures r.AlreadyRunning? <==> old(proc != null && proc.running && Text(proc.cmd) == Text(cmd))
      ensures r.AlreadyRunning? ==> unchanged(this) && unchanged(procs)
      ensures r.AlreadyRunning? && ToldApart(proc.cmd, cmd) ==> proc.cmd == cmd
      ensures r.Started? ==>
        && proc != null && fresh(proc) && proc.cmd == cmd && procs == old(procs) + {proc}
        && |launches| == |old(launches)| + 1 && launches[..|old(launches)|] == old(launches)
        && old(now) <= launches[|old(launches)|] && watched <= old(watched) + {proc}
      ensures r.Started? ==> launches[|old(launches)|] >= old(terminated) + COOLDOWN
      ensures !r.AlreadyRunning? && now < old(terminated) + COOLDOWN ==> r.Refused?
      ensures terminated >= old(terminated)
      ensures r.Refused? ==>
        && proc == null && !Alive() && procs == old(procs) && launches == old(launches) && watched <= old(watched)
        && 0 < r.duration && old(now) <= terminated + COOLDOWN - r.duration <= now
      ensures r.Refused? && watched == old(watched) ==>
        terminated == old(terminated) && old(now) < terminated + COOLDOWN
    {
      hide Text, ToldApart, Spaced;
      if proc != null {
        if proc.running && Text(proc.cmd) == Text(cmd) {
          if ToldApart(proc.cmd, cmd) { SameText(proc.cmd, cmd); }
          return AlreadyRunning;
        }
        StopProc();
        proc := null;
      }
      var reading := now;
      if reading < terminated + COOLDOWN {
        return Refused(terminated + COOLDOWN - reading);
      }
      Launch(cmd);
      r := Started;
    }
  }

  // Starting again, each time after the delay that requeue asks for: a start is refused again only
  // when the end of an earlier process was stamped meanwhile, so there are at most as many further
  // refusals as ends outstanding.
  method StartRequeued(m: Runner, cmd: CommandSpec) returns (r: Outcome, refusals: nat)
    requires m.Valid()
    modifies m, m.procs
    ensures m.Valid() && !r.Refused?
    ensures refusals > 0 ==> r.Started?
    ensures refusals <= 1 + |old(m.watched)|
  {
    r := m.Start(cmd);
    refusals := 0;
    if r.Refused? {
      SubsetSize(m.watched, old(m.watched));
    }
    while r.Refused?
      invariant m.Valid()
      invariant r.Refused? ==> m.proc == null && m.procs == old(m.procs) && m.watched <= old(m.watched)
      invariant r.Refused? ==> refusals <= |old(m.watched)| - |m.watched|
      invariant r.Refused? ==> m.terminated + COOLDOWN - r.duration <= m.now
      invariant refusals <= 1 + |old(m.watched)|
      invariant refusals > 0 ==> !r.AlreadyRunning?
      decreases if r.Refused? then 1 + |m.watched| else 0
    {
      ghost var before := m.watched;
      refusals := refusals + 1;
      m.Elapse(r.duration + MILLISECOND);
      r := m.Start(cmd);
      if r.Refused? {
        SubsetSize(m.watched, before);
      }
    }
  }
}
