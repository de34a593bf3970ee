/** The wifi mode machine: an access point (hostapd) or a station (wpa_supplicant and dhcpcd) on one
    interface, driven by reconciliations in which every command may fail and every process may exit
    at any time. */
module Wifi {
  import opened Command
  import opened Runner

  datatype WifiMode = Disabled | Station | AccessPoint

  datatype Result = Done | Failure | Cooldown(duration: nat)

  // The commands that set up the interface; Other are those that do not.
  datatype Cmd = WriteConf | LinkDown | FlushAddresses | LinkUp | Scan | AddAddress | Other

  const RESTART: seq<Cmd> := [LinkDown, FlushAddresses, LinkUp, Scan]

  // The paths of the generated configuration files.
  datatype Files = Files(hostapd: string, wpa: string)

  function Hostapd(f: Files): CommandSpec { CommandSpec("hostapd", [f.hostapd]) }

  function WpaSupplicant(iface: string, f: Files): CommandSpec {
    CommandSpec("wpa_supplicant", ["-i", iface, "-c", f.wpa])
  }

  function Dhcpcd(iface: string): CommandSpec { CommandSpec("dhcpcd", ["-B", "--metric=204", iface]) }

  class Wifi {
    const ap: Runner
    const station: Runner
    const dhcpcd: Runner
    const wifiIface: string
    var mode: WifiMode
    var wifiIfaceStarted: bool
    var log: seq<Cmd>            // the commands run so far

    ghost function Procs(): set<object>
      reads ap, station, dhcpcd
    {
      ap.procs + station.procs + dhcpcd.procs
    }

    ghost predicate Separate()
      reads this, ap, station, dhcpcd, Procs()
    {
      && ap != station && ap != dhcpcd && station != dhcpcd
      && ap.procs !! station.procs && ap.procs !! dhcpcd.procs && station.procs !! dhcpcd.procs
      && ap.Valid() && station.Valid() && dhcpcd.Valid()
    }

    // A process only lives in the mode it belongs to.
    ghost predicate Valid()
      reads this, ap, station, dhcpcd, Procs()
    {
      && Separate()
      && (ap.Alive() ==> mode == AccessPoint)
      && (station.Alive() || dhcpcd.Alive() ==> mode == Station)
    }

    ghost predicate StationDown()
      reads station, dhcpcd, station.procs, dhcpcd.procs
    {
      !station.Alive() && !dhcpcd.Alive()
    }

    // Some processes may have exited, and nothing else happened to them.
    twostate predicate OnlyExits()
      reads this, ap, station, dhcpcd, Procs()
    {
      && Procs() == old(Procs())
      && ap.proc == old(ap.proc) && station.proc == old(station.proc) && dhcpcd.proc == old(dhcpcd.proc)
      && (ap.Alive() ==> old(ap.Alive()))
      && (station.Alive() ==> old(station.Alive()))
      && (dhcpcd.Alive() ==> old(dhcpcd.Alive()))
    }

    constructor (wifiIface: string, start: int)
      requires start >= COOLDOWN
      ensures Valid() && mode == Disabled && !wifiIfaceStarted && Procs() == {}
      ensures fresh(ap) && fresh(station) && fresh(dhcpcd)
    {
      ap := new Runner(start);
      station := new Runner(start);
      dhcpcd := new Runner(start);
      this.wifiIface := wifiIface;
      mode, wifiIfaceStarted, log := Disabled, false, [];
    }

    method Elapse()
      requires Valid()
      modifies ap, station, dhcpcd, Procs()
      ensures Valid() && OnlyExits()
    {
      hide Runner.Valid, Runner.Alive;
      ap.Elapse(0);
      station.Elapse(0);
      dhcpcd.Elapse(0);
    }

    // Any command: it takes time and may fail.
    method RunCmd(cmd: Cmd) returns (ok: bool)
      requires Valid()
      modifies this`log, ap, station, dhcpcd, Procs()
      ensures Valid() && OnlyExits() && log == old(log) + [cmd]
    {
      Elapse();
      log := log + [cmd];
      ok := *;
    }

    // Stopping one of the three processes.
    method StopProcess(r: Runner)
      requires Valid() && r in {ap, station, dhcpcd}
      modifies r, r.procs
      ensures Valid() && !r.Alive() && r.proc == null && r.procs == old(r.procs)
    {
      hide Runner.Valid, Runner.Alive;
      r.Stop();
    }

    // Starting one of them, in its mode.
    method StartProcess(r: Runner, cmd: CommandSpec) returns (result: Result)
      requires Valid() && r in {ap, station, dhcpcd}
      requires mode == if r == ap then AccessPoint else Station
      modifies r, r.procs
      ensures Valid() && fresh(r.procs - old(r.procs))
      ensures result == Done ==> r.proc != null && Text(r.proc.cmd) == Text(cmd)
      ensures result == Done && old(r.proc) == null ==> r.proc != null && fresh(r.proc)
      ensures result != Failure
    {
      hide Runner.Valid, Runner.Alive;
      var outcome := r.Start(cmd);
      match outcome {
        case Refused(duration) => result := Cooldown(duration);
        case _ => result := Done;
      }
    }

    method RestartWifiInterface() returns (ok: bool)
      requires Valid()
      modifies this`wifiIfaceStarted, this`log, ap, station, dhcpcd, Procs()
      ensures Valid() && OnlyExits()
      ensures ok || old(wifiIfaceStarted) ==> wifiIfaceStarted
      ensures old(log) < log <= old(log) + RESTART && (ok ==> log == old(log) + RESTART)
      ensures !old(wifiIfaceStarted) && wifiIfaceStarted ==> log == old(log) + RESTART
    {
      hide Runner.Valid, Runner.Alive;
      var cmds := [LinkDown, FlushAddresses, LinkUp];
      for i := 0 to |cmds|
        invariant Valid() && OnlyExits() && unchanged(`mode, `wifiIfaceStarted)
        invariant log == old(log) + RESTART[..i]
      {
        assert RESTART[..i + 1] == RESTART[..i] + [cmds[i]];
        ok := RunCmd(cmds[i]);
        if !ok {
          return;
        }
      }
      wifiIfaceStarted := true;
      ok := RunCmd(Scan);
    }

    method StartWifiInterface() returns (ok: bool)
      requires Valid()
      modifies this`wifiIfaceStarted, this`log, ap, station, dhcpcd, Procs()
      ensures Valid() && OnlyExits()
      ensures ok ==> wifiIfaceStarted
      ensures old(log) <= log <= old(log) + RESTART
      ensures if old(wifiIfaceStarted) then ok && log == old(log) else ok ==> log == old(log) + RESTART
    {
      ok := true;
      if !wifiIfaceStarted {
        ok := RestartWifiInterface();
      }
    }

    method StopWifiInterface() returns (ok: bool)
      requires Valid()
      modifies this`wifiIfaceStarted, this`log, ap, station, dhcpcd, Procs()
      ensures Valid() && OnlyExits()
      ensures ok <==> !wifiIfaceStarted
      ensures log == old(log) + if old(wifiIfaceStarted) then [LinkDown] else []
    {
      ok := true;
      if wifiIfaceStarted {
        ok := RunCmd(LinkDown);
        if ok {
          wifiIfaceStarted := false;
        }
      }
    }

    method StartAccessPoint(f: Files, password: string) returns (r: Result)
      requires Valid() && StationDown()
      modifies this`mode, this`wifiIfaceStarted, this`log, ap, station, dhcpcd, Procs()
      ensures Valid() && StationDown() && fresh(Procs() - old(Procs()))
      ensures r == Done ==> mode == AccessPoint && ap.proc != null && Text(ap.proc.cmd) == Text(Hostapd(f))
      ensures r == Failure ==> mode == old(mode)
      ensures r != Failure ==> mode == AccessPoint
      ensures password == "" ==> r == Failure && mode == old(mode) && log == old(log)
      ensures old(log) <= log <= old(log) + [WriteConf] + RESTART + [AddAddress]
      ensures r != Failure ==> (log == old(log) + [WriteConf] || log == old(log) + [WriteConf] + RESTART + [AddAddress])
      ensures r != Failure && old(mode) != AccessPoint ==> log == old(log) + [WriteConf] + RESTART + [AddAddress]
      ensures old(wifiIfaceStarted) ==> wifiIfaceStarted
    {
      hide Runner.Valid, Runner.Alive;
      if password == "" {
        return Failure;
      }
      var ok := RunCmd(WriteConf);
      if !ok {
        return Failure;
      }
      var confChanged: bool := *;
      if confChanged || mode != AccessPoint {
        ok := RestartWifiInterface();
        if !ok {
          return Failure;
        }
        ok := RunCmd(AddAddress);
        if !ok {
          return Failure;
        }
        mode := AccessPoint;
      }
      Elapse();
      r := StartProcess(ap, Hostapd(f));
    }

    method StopAccessPoint()
      requires Valid()
      modifies this`mode, this`wifiIfaceStarted, this`log, ap, station, dhcpcd, Procs()
      ensures Valid() && !ap.Alive() && Procs() == old(Procs())
      ensures mode == if old(mode) == AccessPoint then Disabled else old(mode)
      ensures old(StationDown()) ==> StationDown()
      ensures if old(mode) == AccessPoint then old(log) < log <= old(log) + RESTART else log == old(log)
    {
      hide Runner.Valid, Runner.Alive;
      Elapse();
      StopProcess(ap);
      if mode == AccessPoint {
        var ok := RestartWifiInterface();
        mode := Disabled;
      }
    }

    // The first half of StartStation: the configuration, and the interface when it or the mode changed.
    method EnterStation() returns (ok: bool)
      requires Valid() && !ap.Alive()
      modifies this`mode, this`wifiIfaceStarted, this`log, ap, station, dhcpcd, Procs()
      ensures Valid() && !ap.Alive() && Procs() == old(Procs())
      ensures mode == if ok then Station else old(mode)
      ensures old(wifiIfaceStarted) ==> wifiIfaceStarted
      ensures old(log) < log <= old(log) + [WriteConf] + RESTART
      ensures ok ==> (log == old(log) + [WriteConf] || log == old(log) + [WriteConf] + RESTART)
      ensures ok && old(mode) != Station ==> log == old(log) + [WriteConf] + RESTART
      ensures ok && log == old(log) + [WriteConf] + RESTART ==> station.proc == null
    {
      hide Runner.Valid, Runner.Alive;
      ok := RunCmd(WriteConf);
      if !ok {
        return;
      }
      var confChanged: bool := *;
      if confChanged || mode != Station {
        Elapse();
        ok := RestartWifiInterface();
        if !ok {
          return;
        }
        StopProcess(station);
        mode := Station;
      }
    }

    method StartStation(f: Files) returns (r: Result)
      requires Valid() && !ap.Alive()
      modifies this`mode, this`wifiIfaceStarted, this`log, ap, station, dhcpcd, Procs()
      ensures Valid() && !ap.Alive() && fresh(Procs() - old(Procs()))
      ensures r == Done ==> mode == Station
      ensures r == Done ==> station.proc != null && Text(station.proc.cmd) == Text(WpaSupplicant(wifiIface, f))
      ensures r == Done ==> dhcpcd.proc != null && Text(dhcpcd.proc.cmd) == Text(Dhcpcd(wifiIface))
      ensures mode in {old(mode), Station}
      ensures mode != old(mode) ==> old(log) + [WriteConf] + RESTART <= log
      ensures log <= old(log) + [WriteConf] + RESTART + [Other] || log == old(log) + [WriteConf, Other]
      ensures r == Done && old(mode) != Station ==> log == old(log) + [WriteConf] + RESTART + [Other]
      ensures r == Done && log == old(log) + [WriteConf] + RESTART + [Other] ==> fresh(station.proc)
      ensures old(wifiIfaceStarted) ==> wifiIfaceStarted
    {
      hide Runner.Valid, Runner.Alive, Text, WpaSupplicant, Dhcpcd;
      var ok := EnterStation();
      if !ok {
        return Failure;
      }
      r := StartProcess(station, WpaSupplicant(wifiIface, f));
      if r != Done {
        return;
      }
      r := StartProcess(dhcpcd, Dhcpcd(wifiIface));
      if r != Done {
        return;
      }
      ok := RunCmd(Other);
      r := if ok then Done else Failure;
    }

    method StopStation()
      requires Valid()
      modifies ap, station, dhcpcd, Procs()
      ensures Valid() && StationDown() && Procs() == old(Procs())
      ensures ap.Alive() ==> old(ap.Alive())
    {
      hide Runner.Valid, Runner.Alive;
      StopProcess(station);
      StopProcess(dhcpcd);
      Elapse();
    }

    method Close() returns (ok: bool)
      requires Valid()
      modifies this`mode, this`wifiIfaceStarted, this`log, ap, station, dhcpcd, Procs()
      ensures Valid() && !ap.Alive() && StationDown()
      ensures ok <==> !wifiIfaceStarted
    {
      hide Runner.Valid, Runner.Alive;
      StopAccessPoint();
      StopProcess(ap);
      StopStation();
      ok := StopWifiInterface();
    }

    // What access point and station mode do first; each of these steps may fail.
    method Prepare() returns (ok: bool)
      requires Valid()
      modifies this`wifiIfaceStarted, this`log, ap, station, dhcpcd, Procs()
      ensures Valid() && OnlyExits()
      ensures ok ==> wifiIfaceStarted
    {
      hide Runner.Valid, Runner.Alive;
      ok := StartWifiInterface();
      if ok {
        ok := RunCmd(Other);
      }
    }

    method ReconcileAccessPoint(f: Files, password: string) returns (r: Result)
      requires Valid()
      modifies this`mode, this`wifiIfaceStarted, this`log, ap, station, dhcpcd, Procs()
      ensures Valid() && StationDown() && fresh(Procs() - old(Procs()))
      ensures mode in {old(mode), AccessPoint}
      ensures r == Done ==> mode == AccessPoint && wifiIfaceStarted
      ensures r == Done ==> ap.proc != null && Text(ap.proc.cmd) == Text(Hostapd(f))
    {
      hide Runner.Valid, Runner.Alive, Text, Hostapd;
      StopStation();
      var ok := Prepare();
      if !ok {
        return Failure;
      }
      r := StartAccessPoint(f, password);
    }

    method ReconcileStation(f: Files, ssid: string) returns (r: Result)
      requires Valid()
      modifies this`mode, this`wifiIfaceStarted, this`log, ap, station, dhcpcd, Procs()
      ensures Valid() && !ap.Alive() && fresh(Procs() - old(Procs()))
      ensures mode in {old(mode), Disabled, Station} && mode != AccessPoint
      ensures ssid == "" ==> r == Failure
      ensures r == Done ==> mode == Station && wifiIfaceStarted
      ensures r == Done ==> station.proc != null && Text(station.proc.cmd) == Text(WpaSupplicant(wifiIface, f))
      ensures r == Done ==> dhcpcd.proc != null && Text(dhcpcd.proc.cmd) == Text(Dhcpcd(wifiIface))
    {
      hide Runner.Valid, Runner.Alive, Text, WpaSupplicant, Dhcpcd;
      StopAccessPoint();
      var ok := Prepare();
      if !ok || ssid == "" {
        return Failure;
      }
      r := StartStation(f);
    }

    method ReconcileDisabled() returns (r: Result)
      requires Valid()
      modifies this`mode, this`wifiIfaceStarted, this`log, ap, station, dhcpcd, Procs()
      ensures Valid() && !ap.Alive() && StationDown() && Procs() == old(Procs())
      ensures mode == if old(mode) == AccessPoint then Disabled else old(mode)
      ensures r == if wifiIfaceStarted then Failure else Done
    {
      hide Runner.Valid, Runner.Alive;
      StopStation();
      StopAccessPoint();
      var ok := StopWifiInterface();
      r := if ok then Done else Failure;
    }

    // Whatever fails on the way, no process of the other mode is left.
    method ReconcileWifi(wanted: WifiMode, f: Files, ssid: string, password: string) returns (r: Result)
      requires Valid()
      modifies this`mode, this`wifiIfaceStarted, this`log, ap, station, dhcpcd, Procs()
      ensures Valid() && fresh(Procs() - old(Procs()))
      ensures wanted != AccessPoint ==> !ap.Alive() && mode != AccessPoint
      ensures wanted != Station ==> StationDown()
      ensures r == Done && wanted != Disabled ==> mode == wanted
      ensures r == Done ==> (wifiIfaceStarted <==> wanted != Disabled)
    {
      hide Runner.Valid, Runner.Alive, Text, WpaSupplicant, Dhcpcd, Hostapd;
      match wanted {
        case AccessPoint => r := ReconcileAccessPoint(f, password);
        case Station => r := ReconcileStation(f, ssid);
        case Disabled => r := ReconcileDisabled();
      }
    }
  }

  datatype Request = Request(wanted: WifiMode, files: Files, ssid: string, password: string)

  // Any sequence of reconciliations, with time for processes to exit in between: the access point
  // and the station are never up together.
  method ReconcileAll(w: Wifi, requests: seq<Request>) returns (results: seq<Result>)
    requires w.Valid()
    modifies w`mode, w`wifiIfaceStarted, w`log, w.ap, w.station, w.dhcpcd, w.Procs()
    ensures w.Valid() && |results| == |requests|
    ensures !w.ap.Alive() || w.StationDown()
    ensures requests != [] && requests[|requests| - 1].wanted != AccessPoint ==> !w.ap.Alive()
    ensures requests != [] && requests[|requests| - 1].wanted != Station ==> w.StationDown()
  {
    hide Runner.Valid, Runner.Alive;
    results := [];
    for i := 0 to |requests|
      invariant w.Valid() && |results| == i && fresh(w.Procs() - old(w.Procs()))
      invariant i > 0 && requests[i - 1].wanted != AccessPoint ==> !w.ap.Alive()
      invariant i > 0 && requests[i - 1].wanted != Station ==> w.StationDown()
    {
      var q := requests[i];
      var r := w.ReconcileWifi(q.wanted, q.files, q.ssid, q.password);
      results := results + [r];
      w.Elapse();
    }
  }

  // The texts by which a running process is compared with the wanted one tell two configurations
  // apart, so that a changed one makes the process start anew.
  lemma ConfigurationTold(iface: string, f: Files, g: Files)
    requires Plain([iface, f.hostapd, f.wpa]) && Plain([iface, g.hostapd, g.wpa])
    ensures Text(Hostapd(f)) == Text(Hostapd(g)) <==> f.hostapd == g.hostapd
    ensures Text(WpaSupplicant(iface, f)) == Text(WpaSupplicant(iface, g)) <==> f.wpa == g.wpa
  {
    PlainParts(iface, f);
    PlainParts(iface, g);
    PlainTexts(Hostapd(f));
    PlainTexts(WpaSupplicant(iface, f));
    hide Text;
    assert Hostapd(f).args[0] == f.hostapd && Hostapd(g).args[0] == g.hostapd;
    assert WpaSupplicant(iface, f).args[3] == f.wpa && WpaSupplicant(iface, g).args[3] == g.wpa;
  }

  lemma PlainParts(iface: string, f: Files)
    requires Plain([iface, f.hostapd, f.wpa])
    ensures Plain(Parts(Hostapd(f))) && Plain(Parts(WpaSupplicant(iface, f)))
  {
    var parts := [iface, f.hostapd, f.wpa];
    assert parts[0] == iface && parts[1] == f.hostapd && parts[2] == f.wpa;
  }
}
