/**
 The records exchanged with the Windows Native Wifi (WLAN) service, as the
 program sees them: interface records, available-network records, the
 connection parameters it hands to WlanConnect, and the calls it makes.
 The service itself is not modelled; what its calls return is an input.
 */
module WlanApi {

  newtype byte = b: int | 0 <= b < 256

  /** A Windows DWORD / ULONG: an unsigned 32-bit value. */
  type Dword = x: int | 0 <= x < 0x1_0000_0000

  /** The status every WLAN call returns on success. */
  const ErrorSuccess: Dword := 0

  /** Size of the fixed SSID buffer of a DOT11_SSID record. */
  const Dot11SsidMaxLength: nat := 32

  /** An interface GUID, kept opaque. */
  type Guid = seq<byte>

  /** An opaque client handle returned by WlanOpenHandle. */
  type Handle = nat

  /** A memory address: what a narrow output stream writes for a pointer it has no text inserter for. */
  type Address = nat

  /**
   The interface states the program distinguishes: the eight named values
   of WLAN_INTERFACE_STATE, and any other raw value the service may report.
   */
  datatype InterfaceState =
    | NotReady
    | Connected
    | AdHocNetworkFormed
    | Disconnecting
    | Disconnected
    | Associating
    | Discovering
    | Authenticating
    | Unrecognised(raw: int)

  datatype InterfaceInfo = InterfaceInfo(guid: Guid, description: string, state: InterfaceState)

  /** WLAN_INTERFACE_INFO_LIST: the items and the list's current index. */
  datatype InterfaceList = InterfaceList(items: seq<InterfaceInfo>, currentIndex: Dword)

  /**
   DOT11_SSID: a fixed 32-byte buffer and a length field saying how many of
   its bytes form the SSID. The buffer is not terminated.
   */
  datatype Dot11Ssid = Dot11Ssid(length: Dword, buffer: seq<byte>) {
    /** What the WLAN service guarantees of the record it returns. */
    predicate Valid() {
      |buffer| == Dot11SsidMaxLength && length <= Dot11SsidMaxLength
    }
  }

  datatype BssType = Infrastructure | Independent | AnyBss

  /** WLAN_AVAILABLE_NETWORK, with the fields the program reads. */
  datatype AvailableNetwork = AvailableNetwork(
    profileName: string,
    ssid: Dot11Ssid,
    bssType: BssType,
    connectable: bool,
    notConnectableReason: Dword,
    signalQuality: Dword,
    flags: bv32)

  /** A network list as WlanGetAvailableNetworkList returns it. */
  predicate ValidNetworkList(networks: seq<AvailableNetwork>) {
    |networks| < 0x1_0000_0000 && forall n <- networks :: n.ssid.Valid()
  }

  /** An interface list as WlanEnumInterfaces returns it. */
  predicate ValidInterfaceList(list: InterfaceList) {
    |list.items| < 0x1_0000_0000
  }

  /**
   The decoded SSID (getNetworkSsidString): exactly the first `length`
   bytes of the buffer, whatever they are; no terminator is looked for.
   */
  function SsidOf(n: AvailableNetwork): (s: seq<byte>)
    requires n.ssid.Valid()
    ensures |s| == n.ssid.length
    ensures forall i :: 0 <= i < |s| ==> s[i] == n.ssid.buffer[i]
  {
    n.ssid.buffer[..n.ssid.length]
  }

  /**
   The C++ conversion `(int)x` of a DWORD count: values from 2^31 upwards
   become negative.
   */
  function AsInt32(x: Dword): (r: int)
    ensures -0x8000_0000 <= r < 0x8000_0000
    ensures r <= x
    ensures r >= 0 <==> x < 0x8000_0000
    ensures r >= 0 ==> r == x
  {
    if x < 0x8000_0000 then x else x - 0x1_0000_0000
  }

  /**
   How many entries a loop `for (int j = 0; j < (int)count; ++j)` visits.
   */
  function ScanBound(count: Dword): (n: nat)
    ensures n <= count
    ensures n == count <==> count < 0x8000_0000
    ensures count >= 0x8000_0000 ==> n == 0
  {
    if AsInt32(count) < 0 then 0 else AsInt32(count)
  }

  datatype ConnectionMode = ProfileMode | TemporaryProfileMode | DiscoverySecureMode | DiscoveryUnsecureMode

  /**
   WLAN_CONNECTION_PARAMETERS. A null pointer field is None.
   */
  datatype ConnectionParameters = ConnectionParameters(
    mode: ConnectionMode,
    profile: string,
    ssid: Option<Dot11Ssid>,
    desiredBssids: Option<seq<seq<byte>>>,
    bssType: BssType,
    flags: Dword)

  datatype Option<T> = None | Some(value: T)

  /** The parts of the program's state that WlanFreeMemory can release. */
  datatype Buffer = InterfaceListBuffer | NetworkListBuffer

  /** One call the program makes into the WLAN service, with its arguments. */
  datatype WlanCall =
    | OpenHandle(clientVersion: Dword)
    | EnumInterfaces(client: Handle)
    | GetAvailableNetworkList(client: Handle, iface: Guid, listFlags: Dword)
    | Connect(client: Handle, iface: Guid, parameters: ConnectionParameters)
    | FreeMemory(buffer: Buffer)
    | CloseHandle(client: Handle)
}
