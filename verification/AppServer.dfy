/**
 Which Codex app-servers an activation may restart, and the restart itself
 (`appserver/appserver.go`). Process environments, path cleaning and signals are parameters.
 */
module AppServer {

  import opened Wrappers

  datatype Process = Process(pid: int, command: string)
  datatype Selection = Selection(eligible: seq<Process>, unverifiable: seq<Process>)

  /** What the host answers about processes and paths. */
  datatype Host = Host(
    isAppServer: string -> bool,                 // the command line is that of an app-server
    environment: int -> Option<seq<string>>,     // NUL-separated entries, when readable
    clean: string -> string,                     // the lexically cleaned path
    delivered: int -> bool)                      // SIGTERM to this process succeeds

  const HOME := "CODEX_HOME="

  predicate IsHomeEntry(entry: string) { |HOME| <= |entry| && entry[..|HOME|] == HOME }

  predicate IsAbs(path: string) { path != "" && path[0] == '/' }

  /** The values of all CODEX_HOME entries, in order. */
  function Homes(entries: seq<string>): seq<string> {
    if entries == [] then []
    else
      var last := entries[|entries| - 1];
      Homes(entries[..|entries| - 1]) + (if IsHomeEntry(last) then [last[|HOME|..]] else [])
  }

  /** The process is an app-server whose environment names the expected home, once and absolutely. */
  predicate Eligible(p: Process, expected: string, host: Host) {
    && host.isAppServer(p.command)
    && host.environment(p.pid).Some?
    && var homes := Homes(host.environment(p.pid).value);
       |homes| == 1 && IsAbs(homes[0]) && host.clean(homes[0]) == expected
  }

  lemma {:induction false} HomesPrefix(entries: seq<string>, n: nat)
    requires n <= |entries|
    ensures Homes(entries[..n]) <= Homes(entries)
    decreases |entries|
  {
    hide IsHomeEntry;
    if n < |entries| {
      HomesPrefix(entries[..|entries| - 1], n);
      assert entries[..|entries| - 1][..n] == entries[..n];
    } else {
      assert entries[..n] == entries;
    }
  }

  /** `hasCodexHome`. */
  method HasCodexHome(p: Process, expected: string, host: Host) returns (r: bool)
    ensures r <==> Eligible(p, expected, host)
  {
    hide IsHomeEntry;
    if !host.isAppServer(p.command) {
      return false;
    }
    var environment := host.environment(p.pid);
    if environment.None? {
      return false;
    }
    var entries := environment.value;
    var home: string := "";
    var foundHome := false;
    for index := 0 to |entries|
      invariant |Homes(entries[..index])| == if foundHome then 1 else 0
      invariant foundHome ==> IsAbs(Homes(entries[..index])[0]) && home == host.clean(Homes(entries[..index])[0])
    {
      var entry := entries[index];
      assert entries[..index + 1][..index] == entries[..index];
      HomesPrefix(entries, index + 1);
      if !IsHomeEntry(entry) {
        continue;
      }
      assert |HOME| <= |entry| by { HomeEntryIsLong(entry); }
      var value := entry[|HOME|..];
      assert Homes(entries[..index + 1]) == Homes(entries[..index]) + [value];
      if foundHome || !IsAbs(value) {
        return false;
      }
      foundHome := true;
      home := host.clean(value);
    }
    assert entries[..|entries|] == entries;
    r := foundHome && home == expected;
  }

  lemma {:induction false} HomeEntryIsLong(entry: string)
    requires IsHomeEntry(entry)
    ensures |HOME| <= |entry|
  {
  }

  /** The processes that are, or are not, eligible, in order. */
  function Chosen(ps: seq<Process>, wanted: bool, expected: string, host: Host): seq<Process> {
    if ps == [] then []
    else
      var last := ps[|ps| - 1];
      Chosen(ps[..|ps| - 1], wanted, expected, host) + (if Eligible(last, expected, host) == wanted then [last] else [])
  }

  predicate AllEligible(ps: seq<Process>, expected: string, host: Host) {
    forall i :: 0 <= i < |ps| ==> Eligible(ps[i], expected, host)
  }

  lemma {:induction false} AllEligibleStep(ps: seq<Process>, expected: string, host: Host)
    requires ps != []
    ensures AllEligible(ps, expected, host) <==>
              AllEligible(ps[..|ps| - 1], expected, host) && Eligible(ps[|ps| - 1], expected, host)
  {
    hide Eligible;
    var init := ps[..|ps| - 1];
    assert forall i :: 0 <= i < |init| ==> init[i] == ps[i];
  }

  /** Nothing is unverifiable exactly when every candidate is eligible, and then all are chosen. */
  lemma {:induction false} NoneUnverifiable(ps: seq<Process>, expected: string, host: Host)
    ensures Chosen(ps, false, expected, host) == [] <==> AllEligible(ps, expected, host)
    ensures AllEligible(ps, expected, host) ==> Chosen(ps, true, expected, host) == ps
  {
    hide Eligible;
    if ps != [] {
      hide AllEligible;
      var last := |ps| - 1;
      NoneUnverifiable(ps[..last], expected, host);
      AllEligibleStep(ps, expected, host);
      assert ps == ps[..last] + [ps[last]];
    }
  }

  /** Selection neither loses nor invents a candidate. */
  lemma {:induction false} ChosenPartition(ps: seq<Process>, expected: string, host: Host)
    ensures multiset(Chosen(ps, true, expected, host)) + multiset(Chosen(ps, false, expected, host)) == multiset(ps)
  {
    hide Eligible, Chosen;
    if ps == [] {
      NoneChosen(expected, host);
    } else {
      var init, last := ps[..|ps| - 1], ps[|ps| - 1];
      ChosenPartition(init, expected, host);
      ChosenStep(ps, true, expected, host);
      ChosenStep(ps, false, expected, host);
      assert ps == init + [last];
      assert multiset(ps) == multiset(init) + multiset{last};
      if Eligible(last, expected, host) {
        assert multiset(Chosen(init, true, expected, host) + [last])
               == multiset(Chosen(init, true, expected, host)) + multiset{last};
      } else {
        assert multiset(Chosen(init, false, expected, host) + [last])
               == multiset(Chosen(init, false, expected, host)) + multiset{last};
      }
    }
  }

  lemma {:induction false} NoneChosen(expected: string, host: Host)
    ensures Chosen([], true, expected, host) == [] && Chosen([], false, expected, host) == []
  {
  }

  lemma {:induction false} ChosenStep(ps: seq<Process>, wanted: bool, expected: string, host: Host)
    requires ps != []
    ensures var init, last := ps[..|ps| - 1], ps[|ps| - 1];
            Chosen(ps, wanted, expected, host) ==
            if Eligible(last, expected, host) == wanted then Chosen(init, wanted, expected, host) + [last]
            else Chosen(init, wanted, expected, host)
  {
    hide Eligible;
  }

  /** `selectForCodexHome`. */
  method SelectForCodexHome(candidates: seq<Process>, expected: string, host: Host) returns (r: Selection)
    ensures r.eligible == Chosen(candidates, true, expected, host)
    ensures r.unverifiable == Chosen(candidates, false, expected, host)
  {
    hide Eligible;
    r := Selection([], []);
    for index := 0 to |candidates|
      invariant r.eligible == Chosen(candidates[..index], true, expected, host)
      invariant r.unverifiable == Chosen(candidates[..index], false, expected, host)
    {
      var process := candidates[index];
      assert candidates[..index + 1][..index] == candidates[..index];
      var proven := HasCodexHome(process, expected, host);
      if proven {
        r := r.(eligible := r.eligible + [process]);
      } else {
        r := r.(unverifiable := r.unverifiable + [process]);
      }
    }
    assert candidates[..|candidates|] == candidates;
  }

  predicate Signalled(p: Process, host: Host) { p.pid > 1 && host.delivered(p.pid) }

  function SignalledPids(ps: seq<Process>, host: Host): seq<int> {
    if ps == [] then []
    else
      var last := ps[|ps| - 1];
      SignalledPids(ps[..|ps| - 1], host) + (if Signalled(last, host) then [last.pid] else [])
  }

  predicate AllSignalled(ps: seq<Process>, host: Host) {
    forall i :: 0 <= i < |ps| ==> Signalled(ps[i], host)
  }

  function Pids(ps: seq<Process>): seq<int> { seq(|ps|, i requires 0 <= i < |ps| => ps[i].pid) }

  lemma {:induction false} NobodySignalled(host: Host)
    ensures SignalledPids([], host) == [] && AllSignalled([], host) && Pids([]) == []
  {
  }

  lemma {:induction false} SignalStep(ps: seq<Process>, n: nat, host: Host)
    requires n < |ps|
    ensures var p := ps[n]; var yes := p.pid > 1 && host.delivered(p.pid);
            && SignalledPids(ps[..n + 1], host) == SignalledPids(ps[..n], host) + (if yes then [p.pid] else [])
            && (AllSignalled(ps[..n + 1], host) <==> AllSignalled(ps[..n], host) && yes)
            && Pids(ps[..n + 1]) == Pids(ps[..n]) + [p.pid]
  {
    var more := ps[..n + 1];
    assert more[..n] == ps[..n] && more[n] == ps[n];
    assert forall i :: 0 <= i < n ==> more[i] == ps[..n][i];
  }

  /** `Restart`: every process is tried; the call fails when any of them failed. */
  method Restart(processes: seq<Process>, host: Host) returns (signalled: seq<int>, ok: bool)
    ensures signalled == SignalledPids(processes, host)
    ensures ok <==> AllSignalled(processes, host)
    ensures ok ==> signalled == Pids(processes)
  {
    hide SignalledPids, AllSignalled, Pids, Signalled;
    signalled := [];
    var failures := 0;
    NobodySignalled(host);
    for index := 0 to |processes|
      invariant signalled == SignalledPids(processes[..index], host)
      invariant failures >= 0 && (failures == 0 <==> AllSignalled(processes[..index], host))
      invariant failures == 0 ==> signalled == Pids(processes[..index])
    {
      var process := processes[index];
      SignalStep(processes, index, host);
      if process.pid <= 1 || !host.delivered(process.pid) {
        failures := failures + 1;
        continue;
      }
      signalled := signalled + [process.pid];
    }
    assert processes[..|processes|] == processes;
    ok := failures == 0;
  }
}
