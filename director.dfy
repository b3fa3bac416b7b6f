/**
 The connection director: the decision block of the program's entry point
 (interface 0, the already-connected check, the search, the quality gate
 and the single connect), and the run as a whole with its start-up steps,
 its clean-up and its exit status.
 */
module Director {
  import opened WlanApi
  import opened Trace
  import opened Evaluator

  /** How a run ends. */
  datatype Outcome =
    | LogPathUnavailable
    | OpenHandleError(status: Dword)
    | EnumInterfacesError(status: Dword)
    | AlreadyConnected
    | ListNetworksError(status: Dword)
    | TargetNotFound
    | SignalTooWeak(signalQuality: Dword)
    | ConnectSuccess
    | ConnectError(status: Dword)

  /** The outcomes after which the entry point returns 1. */
  predicate IsFailure(o: Outcome) {
    o.LogPathUnavailable? || o.OpenHandleError? || o.EnumInterfacesError? || o.ListNetworksError? || o.ConnectError?
  }

  /** The outcomes that reach the end of the entry point rather than an early return. */
  predicate FallsThrough(o: Outcome) {
    o.TargetNotFound? || o.SignalTooWeak? || o.ConnectSuccess?
  }

  /** The process exit status: each early `return 1`, `return 0`, or falling off the end. */
  function ExitStatus(o: Outcome): (status: int)
    ensures status == 0 || status == 1
    ensures status == 1 <==> IsFailure(o)
    ensures FallsThrough(o) || o.AlreadyConnected? ==> status == 0
  {
    if IsFailure(o) then 1 else 0
  }

  /** The interface the program acts on: always the first one. */
  const InterfaceIndex: nat := 0

  /** The client version the program asks WlanOpenHandle for. */
  const ClientVersion: Dword := 2

  /** What the WLAN service returns to each of the program's calls. */
  datatype WlanAnswers = WlanAnswers(
    openStatus: Dword, client: Handle, negotiatedVersion: Dword,
    enumStatus: Dword, interfaces: InterfaceList,
    listStatus: Dword, networks: seq<AvailableNetwork>,
    connectStatus: Dword)

  /**
   What the decision block relies on: an interface 0 to read (the entry
   point indexes it without checking the count), and a well-formed network
   list whenever the list request succeeds.
   */
  predicate DecisionInputsValid(a: WlanAnswers) {
    |a.interfaces.items| > 0 && (a.listStatus == ErrorSuccess ==> ValidNetworkList(a.networks))
  }

  /**
   The connection request built for a matched network: profile mode, that
   network's profile name and BSS type, no SSID, no BSSID list, no flags.
   */
  function ProfileConnectionParameters(n: AvailableNetwork): (cp: ConnectionParameters)
    ensures cp.mode == ProfileMode && cp.profile == n.profileName && cp.bssType == n.bssType
    ensures cp.ssid.None? && cp.desiredBssids.None? && cp.flags == 0
  {
    ConnectionParameters(ProfileMode, n.profileName, None, None, n.bssType, 0)
  }

  /** The outcome, the WLAN calls made, and the log written by the decision block. */
  datatype Decided = Decided(outcome: Outcome, calls: seq<WlanCall>, log: seq<LogEvent>)

  /**
   What the decision block does, given what WlanGetAvailableNetworkList
   (status and list) and WlanConnect (status) return.
   */
  function Decision(cfg: Config, a: WlanAnswers): (d: Decided)
    requires DecisionInputsValid(a)
  {
    var info := a.interfaces.items[InterfaceIndex];
    if info.state == Connected then Decided(AlreadyConnected, [], [AlreadyConnectedNote])
    else
      var listCall := GetAvailableNetworkList(a.client, info.guid, 0);
      if a.listStatus != ErrorSuccess then
        Decided(ListNetworksError(a.listStatus), [listCall], [ListNetworksFailed(a.listStatus)])
      else
        var printed := NetworkListLines(a.networks);
        match Evaluate(cfg, a.networks)
        case NotFound => Decided(TargetNotFound, [listCall], printed + [TargetMissing(cfg.targetSsid)])
        case FoundButWeak(k) =>
          var quality := a.networks[k].signalQuality;
          Decided(SignalTooWeak(quality), [listCall], printed + [FoundTarget(quality)] + [QualityTooLow])
        case FoundAndStrong(k) =>
          var calls := [listCall] + [Connect(a.client, info.guid, ProfileConnectionParameters(a.networks[k]))];
          var tried := printed + [FoundTarget(a.networks[k].signalQuality)] + [ConnectingWithProfile];
          if a.connectStatus != ErrorSuccess then
            Decided(ConnectError(a.connectStatus), calls, tried + [ConnectFailedNote(a.connectStatus)])
          else Decided(ConnectSuccess, calls, tried + [ConnectSucceeded])
  }

  /**
   The decision block as the program runs it: one pass over the network
   list with a `found` flag, a `break` at the first match and an early
   return when the connect fails. The target is a C string literal, with
   no zero byte, so comparing it with the decoded SSID compares full lengths.
   */
  method Decide(cfg: Config, a: WlanAnswers) returns (outcome: Outcome, calls: seq<WlanCall>, log: seq<LogEvent>)
    requires cfg.Valid() && DecisionInputsValid(a)
    ensures Decided(outcome, calls, log) == Decision(cfg, a)
  {
    var info := a.interfaces.items[InterfaceIndex];
    if info.state == Connected {
      return AlreadyConnected, [], [AlreadyConnectedNote];
    }
    calls := [GetAvailableNetworkList(a.client, info.guid, 0)];
    if a.listStatus != ErrorSuccess {
      return ListNetworksError(a.listStatus), calls, [ListNetworksFailed(a.listStatus)];
    }
    var networks := a.networks;
    log := PrintNetworkList(networks);
    ghost var printed := log;
    ghost var bound := ScanBound(|networks|);
    var target := cfg.targetSsid;
    var found := false;
    outcome := TargetNotFound;
    var j := 0;
    while j < AsInt32(|networks|)
      invariant 0 <= j <= bound
      invariant FirstMatch(networks, target, 0, bound) == FirstMatch(networks, target, j, bound)
      invariant !found && calls == [GetAvailableNetworkList(a.client, info.guid, 0)] && log == printed
    {
      assert networks[j] in networks;
      var network := networks[j];
      if target == SsidOf(network) {
        assert FirstMatch(networks, target, j, bound) == Some(j);
        log := log + [FoundTarget(network.signalQuality)];
        found := true;
        if network.signalQuality < cfg.minAcceptableSignalQuality {
          log := log + [QualityTooLow];
          outcome := SignalTooWeak(network.signalQuality);
          assert Evaluate(cfg, networks) == FoundButWeak(j);
        } else {
          log := log + [ConnectingWithProfile];
          assert Evaluate(cfg, networks) == FoundAndStrong(j);
          var cp := ProfileConnectionParameters(network);
          calls := calls + [Connect(a.client, info.guid, cp)];
          if a.connectStatus != ErrorSuccess {
            log := log + [ConnectFailedNote(a.connectStatus)];
            return ConnectError(a.connectStatus), calls, log;
          } else {
            log := log + [ConnectSucceeded];
            outcome := ConnectSuccess;
          }
        }
        break;
      }
      j := j + 1;
    }
    if !found {
      assert FirstMatch(networks, target, j, bound) == None;
      assert Evaluate(cfg, networks) == NotFound;
      log := log + [TargetMissing(target)];
    }
  }

  // ---------------------------------------------------------------------
  // Properties of the decision
  // ---------------------------------------------------------------------

  /**
   Only interface 0 is used, for both calls, on the program's client handle;
   there is at most one connect, and it always follows the list request.
   */
  lemma CallsUseInterfaceZero(cfg: Config, a: WlanAnswers)
    requires DecisionInputsValid(a)
    ensures var d := Decision(cfg, a);
      && (forall c <- d.calls ::
            (c.GetAvailableNetworkList? || c.Connect?) && c.client == a.client && c.iface == a.interfaces.items[0].guid)
      && |d.calls| <= 2 && forall i :: 0 <= i < |d.calls| ==> (d.calls[i].Connect? <==> i == 1)
  {
  }

  /**
   If interface 0 is connected the run ends at once with success: no network
   list is requested and no connect is attempted. No other state stops it.
   */
  lemma AlreadyConnectedEndsRun(cfg: Config, a: WlanAnswers)
    requires DecisionInputsValid(a)
    ensures var d := Decision(cfg, a);
      && (d.outcome == AlreadyConnected <==> a.interfaces.items[0].state == Connected)
      && (a.interfaces.items[0].state == Connected ==>
            d.calls == [] && d.log == [AlreadyConnectedNote] && ExitStatus(d.outcome) == 0)
      && (a.interfaces.items[0].state != Connected ==>
            |d.calls| > 0 && d.calls[0] == GetAvailableNetworkList(a.client, a.interfaces.items[0].guid, 0))
  {
  }

  /** A failed network-list request ends the run with that failure and nothing more. */
  lemma ListFailureEndsRun(cfg: Config, a: WlanAnswers)
    requires DecisionInputsValid(a)
    requires a.interfaces.items[0].state != Connected && a.listStatus != ErrorSuccess
    ensures var d := Decision(cfg, a);
      d.outcome == ListNetworksError(a.listStatus) && |d.calls| == 1 && ExitStatus(d.outcome) == 1
  {
  }

  /**
   A connect is attempted exactly when the first match's quality reaches the
   threshold; the request is in profile mode, with the matched record's
   profile name and BSS type, and no SSID or BSSID list.
   */
  lemma ConnectIffStrongFirstMatch(cfg: Config, a: WlanAnswers)
    requires DecisionInputsValid(a)
    ensures var d := Decision(cfg, a);
      && ((exists c <- d.calls :: c.Connect?) <==>
            a.interfaces.items[0].state != Connected && a.listStatus == ErrorSuccess
            && Evaluate(cfg, a.networks).FoundAndStrong?)
      && (forall c <- d.calls :: c.Connect? ==>
            var n := a.networks[Evaluate(cfg, a.networks).index];
            && c.parameters.mode == ProfileMode && c.parameters.profile == n.profileName
            && c.parameters.bssType == n.bssType
            && c.parameters.ssid.None? && c.parameters.desiredBssids.None?)
  {
    var d := Decision(cfg, a);
    var info := a.interfaces.items[0];
    var listCall := GetAvailableNetworkList(a.client, info.guid, 0);
    if info.state != Connected && a.listStatus == ErrorSuccess && Evaluate(cfg, a.networks).FoundAndStrong? {
      var connect := Connect(a.client, info.guid, ProfileConnectionParameters(a.networks[Evaluate(cfg, a.networks).index]));
      assert d.calls == [listCall] + [connect];
      assert d.calls[1] == connect;
    } else {
      assert d.calls == [] || d.calls == [listCall];
    }
  }

  /**
   After a successful list request the outcome is the evaluation's: not
   found, too weak (with the matched quality), or the connect's result.
   The printed network list comes first in the log.
   */
  lemma OutcomeFollowsEvaluation(cfg: Config, a: WlanAnswers)
    requires DecisionInputsValid(a)
    requires a.interfaces.items[0].state != Connected && a.listStatus == ErrorSuccess
    ensures var d := Decision(cfg, a);
      var e := Evaluate(cfg, a.networks);
      && NetworkListLines(a.networks) <= d.log
      && (e.NotFound? ==> d.outcome == TargetNotFound && d.log[|d.log| - 1] == TargetMissing(cfg.targetSsid))
      && (e.FoundButWeak? ==> d.outcome == SignalTooWeak(a.networks[e.index].signalQuality))
      && (e.FoundAndStrong? && a.connectStatus == ErrorSuccess ==> d.outcome == ConnectSuccess)
      && (e.FoundAndStrong? && a.connectStatus != ErrorSuccess ==> d.outcome == ConnectError(a.connectStatus))
  {
  }

  /**
   The decision fails (exit status 1) only when the service rejects the list
   request or the connect; not finding the target and a weak signal are
   successful ends.
   */
  lemma FailsOnlyOnServiceError(cfg: Config, a: WlanAnswers)
    requires DecisionInputsValid(a)
    ensures ExitStatus(Decision(cfg, a).outcome) == 1 <==>
      a.interfaces.items[0].state != Connected &&
      (a.listStatus != ErrorSuccess || (Evaluate(cfg, a.networks).FoundAndStrong? && a.connectStatus != ErrorSuccess))
  {
  }

  /**
   First match wins across lists: replacing or adding records after the
   first match (a stronger duplicate, say) changes nothing the run does.
   */
  lemma DecisionIgnoresLaterDuplicates(cfg: Config, a: WlanAnswers, other: seq<AvailableNetwork>)
    requires DecisionInputsValid(a) && a.listStatus == ErrorSuccess && ValidNetworkList(other)
    requires !Evaluate(cfg, a.networks).NotFound?
    requires Evaluate(cfg, a.networks).index < ScanBound(|other|)
    requires other[..Evaluate(cfg, a.networks).index + 1] == a.networks[..Evaluate(cfg, a.networks).index + 1]
    ensures Decision(cfg, a.(networks := other)).outcome == Decision(cfg, a).outcome
    ensures Decision(cfg, a.(networks := other)).calls == Decision(cfg, a).calls
  {
    EvaluationIgnoresLater(cfg, a.networks, other);
    var k := Evaluate(cfg, a.networks).index;
    assert other[k] == other[..k + 1][k] == a.networks[..k + 1][k] == a.networks[k];
  }

  /** Only interface 0 matters: the interfaces after it never change the decision. */
  lemma DecisionOnlyReadsFirstInterface(cfg: Config, a: WlanAnswers, rest: seq<InterfaceInfo>)
    requires DecisionInputsValid(a)
    ensures var first := a.interfaces.(items := [a.interfaces.items[0]] + rest);
      Decision(cfg, a.(interfaces := first)) == Decision(cfg, a)
  {
  }

  // ---------------------------------------------------------------------
  // The whole run
  // ---------------------------------------------------------------------

  /** What one run produces: exit status, outcome, WLAN calls and log. */
  datatype Report = Report(exit: int, outcome: Outcome, calls: seq<WlanCall>, log: seq<LogEvent>)

  /** What the entry point relies on of the service's answers. */
  predicate RunInputsValid(logPathFound: bool, a: WlanAnswers) {
    && (logPathFound && a.openStatus == ErrorSuccess && a.enumStatus == ErrorSuccess ==>
          ValidInterfaceList(a.interfaces) && |a.interfaces.items| > 0)
    && (a.listStatus == ErrorSuccess ==> ValidNetworkList(a.networks))
  }

  /**
   One run of the program. `logPathFound` is whether the per-user log path
   could be resolved; the service's answers come from `a`.
   */
  function Program(cfg: Config, logPathFound: bool, a: WlanAnswers): (r: Report)
    requires RunInputsValid(logPathFound, a)
    ensures r.exit == ExitStatus(r.outcome)
    ensures r.exit == 0 <==> r.outcome.AlreadyConnected? || FallsThrough(r.outcome)
  {
    if !logPathFound then Report(1, LogPathUnavailable, [], [])
    else if a.openStatus != ErrorSuccess then
      Report(1, OpenHandleError(a.openStatus), [OpenHandle(ClientVersion)], [Timestamp] + [OpenHandleFailed(a.openStatus)])
    else
      var started := [Timestamp] + [ClientOpened(a.client, a.negotiatedVersion)];
      var enumerated := [OpenHandle(ClientVersion)] + [EnumInterfaces(a.client)];
      if a.enumStatus != ErrorSuccess then
        Report(1, EnumInterfacesError(a.enumStatus), enumerated, started + [EnumInterfacesFailed(a.enumStatus)])
      else
        var d := Decision(cfg, a);
        var log := started + InterfaceListLines(a.interfaces) + d.log;
        if FallsThrough(d.outcome) then
          Report(0, d.outcome, enumerated + d.calls + [FreeMemory(InterfaceListBuffer), CloseHandle(a.client)], log)
        else Report(ExitStatus(d.outcome), d.outcome, enumerated + d.calls, log)
  }

  /**
   The start-up steps: without a log path nothing is asked of the service;
   otherwise the handle is opened first and the log starts with the time,
   and a failed open or enumeration ends the run with that failure.
   Past enumeration the outcome is the decision's.
   */
  lemma StartUpSteps(cfg: Config, logPathFound: bool, a: WlanAnswers)
    requires RunInputsValid(logPathFound, a)
    ensures var r := Program(cfg, logPathFound, a);
      && (!logPathFound ==> r.outcome == LogPathUnavailable && r.calls == [] && r.log == [])
      && (logPathFound ==> |r.calls| > 0 && r.calls[0] == OpenHandle(ClientVersion) && |r.log| > 0 && r.log[0] == Timestamp)
      && (logPathFound && a.openStatus != ErrorSuccess ==> r.outcome == OpenHandleError(a.openStatus) && |r.calls| == 1)
      && (logPathFound && a.openStatus == ErrorSuccess && a.enumStatus != ErrorSuccess ==>
            r.outcome == EnumInterfacesError(a.enumStatus) && r.calls == [OpenHandle(ClientVersion), EnumInterfaces(a.client)])
      && (logPathFound && a.openStatus == ErrorSuccess && a.enumStatus == ErrorSuccess ==>
            r.outcome == Decision(cfg, a).outcome && InterfaceListLines(a.interfaces) <= r.log[2..])
  {
  }

  /**
   Clean-up as the entry point does it: the interface list is released and
   the handle closed on the fall-through path only; every early return
   leaves them, and the network list is never released.
   */
  lemma CleanUpOnFallThroughOnly(cfg: Config, logPathFound: bool, a: WlanAnswers)
    requires RunInputsValid(logPathFound, a)
    ensures var r := Program(cfg, logPathFound, a);
      && (CloseHandle(a.client) in r.calls <==> FallsThrough(r.outcome))
      && (FreeMemory(InterfaceListBuffer) in r.calls <==> FallsThrough(r.outcome))
      && FreeMemory(NetworkListBuffer) !in r.calls
  {
    if logPathFound && a.openStatus == ErrorSuccess && a.enumStatus == ErrorSuccess {
      var d := Decision(cfg, a);
      CallsUseInterfaceZero(cfg, a);
      var head := [OpenHandle(ClientVersion)] + [EnumInterfaces(a.client)] + d.calls;
      assert NoCleanUp(head) by {
        assert NoCleanUp([OpenHandle(ClientVersion)] + [EnumInterfaces(a.client)]);
      }
      CleanUpCalls(head, a.client);
    }
  }

  /** No call in `calls` releases anything. */
  predicate NoCleanUp(calls: seq<WlanCall>) {
    forall c <- calls :: !c.CloseHandle? && !c.FreeMemory?
  }

  /** Appending the fall-through clean-up is what puts the release calls in a call list without them. */
  lemma CleanUpCalls(head: seq<WlanCall>, client: Handle)
    requires NoCleanUp(head)
    ensures CloseHandle(client) !in head && FreeMemory(InterfaceListBuffer) !in head && FreeMemory(NetworkListBuffer) !in head
    ensures var calls := head + [FreeMemory(InterfaceListBuffer), CloseHandle(client)];
      CloseHandle(client) in calls && FreeMemory(InterfaceListBuffer) in calls && FreeMemory(NetworkListBuffer) !in calls
  {
    var calls := head + [FreeMemory(InterfaceListBuffer), CloseHandle(client)];
    assert calls[|head|] == FreeMemory(InterfaceListBuffer) && calls[|head| + 1] == CloseHandle(client);
  }

  /** The program's entry point, step by step. */
  method Run(cfg: Config, logPathFound: bool, a: WlanAnswers)
    returns (exit: int, outcome: Outcome, calls: seq<WlanCall>, log: seq<LogEvent>)
    requires cfg.Valid() && RunInputsValid(logPathFound, a)
    ensures Report(exit, outcome, calls, log) == Program(cfg, logPathFound, a)
  {
    if !logPathFound {
      return 1, LogPathUnavailable, [], [];
    }
    log := [Timestamp];
    calls := [OpenHandle(ClientVersion)];
    if a.openStatus != ErrorSuccess {
      log := log + [OpenHandleFailed(a.openStatus)];
      return 1, OpenHandleError(a.openStatus), calls, log;
    }
    log := log + [ClientOpened(a.client, a.negotiatedVersion)];
    calls := calls + [EnumInterfaces(a.client)];
    if a.enumStatus != ErrorSuccess {
      log := log + [EnumInterfacesFailed(a.enumStatus)];
      return 1, EnumInterfacesError(a.enumStatus), calls, log;
    }
    var printed := PrintInterfaces(a.interfaces);
    log := log + printed;
    var decidedCalls, decidedLog;
    outcome, decidedCalls, decidedLog := Decide(cfg, a);
    calls := calls + decidedCalls;
    log := log + decidedLog;
    if outcome.AlreadyConnected? {
      return 0, outcome, calls, log;
    } else if !FallsThrough(outcome) {
      return 1, outcome, calls, log;
    }
    calls := calls + [FreeMemory(InterfaceListBuffer), CloseHandle(a.client)];
    exit := 0;
  }
}
