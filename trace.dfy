/**
 The program's log, as a sequence of abstract events rather than formatted
 text, and the two helpers that give names to raw values: the label of an
 interface state (stateToString) and the named bits of a network's flags.
 */
module Trace {
  import opened WlanApi

  // ---------------------------------------------------------------------
  // Interface state labels (stateToString)
  // ---------------------------------------------------------------------

  const UnknownStateLabel := "Unknown state"

  /** The label written for an interface state; total, with a fallback. */
  function StateToString(state: InterfaceState): (text: string)
    ensures |text| > 0
  {
    match state
    case NotReady => "Not ready"
    case Connected => "Connected"
    case AdHocNetworkFormed => "First node in an ad hoc netowrk"
    case Disconnecting => "Disconnecting"
    case Disconnected => "Not connected"
    case Associating => "Attempting to associate with a network"
    case Discovering => "Auto configuration is discovering settings for the network"
    case Authenticating => "In process of authenticating"
    case Unrecognised(_) => UnknownStateLabel
  }

  /** The fallback label is written for unrecognised values only. */
  lemma UnknownLabelOnlyForUnrecognised(state: InterfaceState)
    ensures StateToString(state) == UnknownStateLabel <==> state.Unrecognised?
  {
  }

  /** Distinct named states get distinct labels, so the log identifies the state. */
  lemma StateLabelsIdentifyState(a: InterfaceState, b: InterfaceState)
    requires StateToString(a) == StateToString(b)
    ensures a == b || (a.Unrecognised? && b.Unrecognised?)
  {
  }

  // ---------------------------------------------------------------------
  // Network flags
  // ---------------------------------------------------------------------

  /** WLAN_AVAILABLE_NETWORK_CONNECTED */
  const FlagConnected: bv32 := 1
  /** WLAN_AVAILABLE_NETWORK_HAS_PROFILE */
  const FlagHasProfile: bv32 := 2

  datatype NetworkFlag = CurrentlyConnected | HasProfile

  /** The flags named in the log after the raw value, in the order written. */
  function FlagNames(flags: bv32): (names: seq<NetworkFlag>)
    ensures CurrentlyConnected in names <==> flags & FlagConnected != 0
    ensures HasProfile in names <==> flags & FlagHasProfile != 0
    ensures |names| <= 2 && (|names| == 2 ==> names == [CurrentlyConnected, HasProfile])
  {
    if flags != 0 then
      (if flags & FlagConnected != 0 then [CurrentlyConnected] else [])
      + (if flags & FlagHasProfile != 0 then [HasProfile] else [])
    else []
  }

  // ---------------------------------------------------------------------
  // Log events
  // ---------------------------------------------------------------------

  datatype Connectability = Yes | NoBecause(reason: Dword)

  /** What printNetworkList writes about one network. */
  datatype NetworkSummary = NetworkSummary(
    profileName: string,
    ssid: seq<byte>,
    connectable: Connectability,
    flags: bv32,
    flagNames: seq<NetworkFlag>,
    signalQuality: Dword)

  datatype LogEvent =
    | Timestamp
    | OpenHandleFailed(status: Dword)
    | ClientOpened(client: Handle, version: Dword)
    | EnumInterfacesFailed(status: Dword)
    | InterfaceListHeader(count: Dword, currentIndex: Dword)
    | InterfaceEntry(index: nat, guid: Guid, description: string, stateLabel: string)
    | AlreadyConnectedNote
    | ListNetworksFailed(status: Dword)
    | NetworkListHeader(count: Dword)
    | NetworkEntry(summary: NetworkSummary)
    | FoundTarget(signalQuality: Dword)
    | QualityTooLow
    | ConnectingWithProfile
    | ConnectFailedNote(status: Dword)
    | ConnectSucceeded
    | TargetMissing(target: seq<byte>)

  function Summary(n: AvailableNetwork): (s: NetworkSummary)
    requires n.ssid.Valid()
    ensures s.ssid == SsidOf(n) && s.profileName == n.profileName && s.signalQuality == n.signalQuality
    ensures s.connectable.Yes? <==> n.connectable
    ensures !n.connectable ==> s.connectable.reason == n.notConnectableReason
    ensures s.flags == n.flags && s.flagNames == FlagNames(n.flags)
  {
    NetworkSummary(n.profileName, SsidOf(n), if n.connectable then Yes else NoBecause(n.notConnectableReason),
                   n.flags, FlagNames(n.flags), n.signalQuality)
  }

  /** The entries for the first `k` networks, in list order. */
  function NetworkEntries(networks: seq<AvailableNetwork>, k: nat): (lines: seq<LogEvent>)
    requires k <= |networks| && forall n <- networks :: n.ssid.Valid()
    ensures |lines| == k
  {
    if k == 0 then [] else NetworkEntries(networks, k - 1) + [NetworkEntry(Summary(networks[k - 1]))]
  }

  /** Entry j of the printed list describes network j. */
  lemma {:induction false} NetworkEntryAt(networks: seq<AvailableNetwork>, k: nat, j: nat)
    requires k <= |networks| && forall n <- networks :: n.ssid.Valid()
    requires j < k
    ensures NetworkEntries(networks, k)[j] == NetworkEntry(Summary(networks[j]))
  {
    if j < k - 1 {
      NetworkEntryAt(networks, k - 1, j);
    }
  }

  /** Everything printNetworkList writes: a header with the count, then one entry per network visited. */
  function NetworkListLines(networks: seq<AvailableNetwork>): (lines: seq<LogEvent>)
    requires ValidNetworkList(networks)
    ensures |lines| == 1 + ScanBound(|networks|) && lines[0] == NetworkListHeader(|networks|)
  {
    [NetworkListHeader(|networks|)] + NetworkEntries(networks, ScanBound(|networks|))
  }

  /** printNetworkList */
  method PrintNetworkList(networks: seq<AvailableNetwork>) returns (lines: seq<LogEvent>)
    requires ValidNetworkList(networks)
    ensures lines == NetworkListLines(networks)
  {
    lines := [NetworkListHeader(|networks|)];
    var j := 0;
    while j < AsInt32(|networks|)
      invariant 0 <= j <= ScanBound(|networks|)
      invariant lines == [NetworkListHeader(|networks|)] + NetworkEntries(networks, j)
    {
      assert networks[j] in networks;
      lines := lines + [NetworkEntry(Summary(networks[j]))];
      j := j + 1;
    }
  }

  function InterfaceEntries(items: seq<InterfaceInfo>, k: nat): (lines: seq<LogEvent>)
    requires k <= |items|
    ensures |lines| == k
  {
    if k == 0 then []
    else
      var info := items[k - 1];
      InterfaceEntries(items, k - 1) + [InterfaceEntry(k - 1, info.guid, info.description, StateToString(info.state))]
  }

  /** Entry i of the printed list describes interface i, with its state's label. */
  lemma {:induction false} InterfaceEntryAt(items: seq<InterfaceInfo>, k: nat, i: nat)
    requires i < k <= |items|
    ensures InterfaceEntries(items, k)[i] == InterfaceEntry(i, items[i].guid, items[i].description, StateToString(items[i].state))
  {
    if i < k - 1 {
      InterfaceEntryAt(items, k - 1, i);
    }
  }

  /** Everything printInterfaces writes: count and current index, then one entry per interface visited. */
  function InterfaceListLines(list: InterfaceList): (lines: seq<LogEvent>)
    requires ValidInterfaceList(list)
    ensures |lines| == 1 + ScanBound(|list.items|)
    ensures lines[0] == InterfaceListHeader(|list.items|, list.currentIndex)
  {
    [InterfaceListHeader(|list.items|, list.currentIndex)] + InterfaceEntries(list.items, ScanBound(|list.items|))
  }

  /** printInterfaces */
  method PrintInterfaces(list: InterfaceList) returns (lines: seq<LogEvent>)
    requires ValidInterfaceList(list)
    ensures lines == InterfaceListLines(list)
  {
    lines := [InterfaceListHeader(|list.items|, list.currentIndex)];
    var i := 0;
    while i < AsInt32(|list.items|)
      invariant 0 <= i <= ScanBound(|list.items|)
      invariant lines == [InterfaceListHeader(|list.items|, list.currentIndex)] + InterfaceEntries(list.items, i)
    {
      var info := list.items[i];
      var entry := InterfaceEntry(i, info.guid, info.description, StateToString(info.state));
      assert InterfaceEntries(list.items, i + 1) == InterfaceEntries(list.items, i) + [entry];
      lines := lines + [entry];
      i := i + 1;
    }
  }
  // ---------------------------------------------------------------------
  // Wide text on the narrow log, as written
  // ---------------------------------------------------------------------

  /**
   A network entry as the source writes it. The profile name is a WCHAR
   array, and a narrow std::ostream before C++20 has no inserter for wide
   text, so it is written through the `const void*` inserter: the log holds
   the array's address `profileNameAt`, not the name.
   */
  datatype NetworkSummaryAsWritten = NetworkSummaryAsWritten(
    profileNameAt: Address,
    ssid: seq<byte>,
    connectable: Connectability,
    flags: bv32,
    flagNames: seq<NetworkFlag>,
    signalQuality: Dword)

  function SummaryAsWritten(n: AvailableNetwork, profileNameAt: Address): (s: NetworkSummaryAsWritten)
    requires n.ssid.Valid()
    ensures s.profileNameAt == profileNameAt
    ensures s.ssid == Summary(n).ssid && s.connectable == Summary(n).connectable
    ensures s.flags == Summary(n).flags && s.flagNames == Summary(n).flagNames
    ensures s.signalQuality == Summary(n).signalQuality
  {
    NetworkSummaryAsWritten(profileNameAt, SsidOf(n), if n.connectable then Yes else NoBecause(n.notConnectableReason),
                            n.flags, FlagNames(n.flags), n.signalQuality)
  }

  /**
   As written, the log cannot tell two profile names apart: renaming the
   profile leaves the entry unchanged, where the intended entry changes.
   */
  lemma ProfileNameNotLogged(n: AvailableNetwork, name: string, profileNameAt: Address)
    requires n.ssid.Valid()
    ensures SummaryAsWritten(n.(profileName := name), profileNameAt) == SummaryAsWritten(n, profileNameAt)
    ensures name != n.profileName ==> Summary(n.(profileName := name)) != Summary(n)
  {
    assert SsidOf(n.(profileName := name)) == SsidOf(n);
  }

  /** As intended, the entry names the profile: entries for different profile names differ. */
  lemma SummaryNamesProfile(n: AvailableNetwork, m: AvailableNetwork)
    requires n.ssid.Valid() && m.ssid.Valid()
    requires Summary(n) == Summary(m)
    ensures n.profileName == m.profileName
  {
  }

  /**
   An interface entry as the source writes it: `guidString` (the text
   StringFromGUID2 made, one stack buffer for every entry) and the interface
   description are WCHAR arrays, so the log holds their addresses.
   */
  datatype InterfaceEntryAsWritten = InterfaceEntryAsWritten(
    index: nat, guidStringAt: Address, descriptionAt: Address, stateLabel: string)

  function InterfaceEntryWritten(i: nat, info: InterfaceInfo, guidStringAt: Address, descriptionAt: Address)
    : (e: InterfaceEntryAsWritten)
    ensures e.index == i && e.stateLabel == StateToString(info.state)
    ensures e.guidStringAt == guidStringAt && e.descriptionAt == descriptionAt
  {
    InterfaceEntryAsWritten(i, guidStringAt, descriptionAt, StateToString(info.state))
  }

  /**
   As written, the log names neither the interface's GUID nor its
   description; only the state shows. Two interfaces with different
   descriptions give the same entry, where the intended entries differ.
   */
  lemma InterfaceTextNotLogged(i: nat, info: InterfaceInfo, other: InterfaceInfo, guidStringAt: Address, descriptionAt: Address)
    requires other.state == info.state
    ensures InterfaceEntryWritten(i, info, guidStringAt, descriptionAt) == InterfaceEntryWritten(i, other, guidStringAt, descriptionAt)
    ensures info.description != other.description ==>
      InterfaceEntry(i, info.guid, info.description, StateToString(info.state))
      != InterfaceEntry(i, other.guid, other.description, StateToString(other.state))
  {
  }

  /** As intended, the entry identifies the interface: equal entries mean equal GUID and description. */
  lemma InterfaceEntryNamesInterface(i: nat, info: InterfaceInfo, other: InterfaceInfo)
    requires InterfaceEntry(i, info.guid, info.description, StateToString(info.state))
          == InterfaceEntry(i, other.guid, other.description, StateToString(other.state))
    ensures info.guid == other.guid && info.description == other.description
  {
  }

}
