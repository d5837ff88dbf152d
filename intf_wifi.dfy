/**
 * The Wi-Fi interface wrapper: the mode mappings, the IPv4 address split,
 * the copy of scan results into the static record list, the translation of
 * driver events into interface events, and the guards of the connect,
 * disconnect, set-mode and set-credentials calls.
 *
 * Every call into the Wi-Fi driver is a parameter: its result (`driverOk`)
 * and, for the scan, the records the driver holds.
 */
module IntfWifi {
  import opened Wrappers

  newtype uint8 = x: int | 0 <= x < 0x100

  // ---------------------------------------------------------------------
  // Modes
  // ---------------------------------------------------------------------

  /** intf_wifi_Mode_t, a uint8_t holding one of these values (or any other). */
  const MODE_NULL: uint8 := 0
  const MODE_STA: uint8 := 1
  const MODE_AP: uint8 := 2
  const MODE_APSTA: uint8 := 3
  const MODE_MAX: uint8 := 4

  /** The driver's own mode type. */
  datatype DriverMode = WifiModeNull | WifiModeSta | WifiModeAp | WifiModeApsta

  datatype Status = StatusOk | StatusError

  /** The three modes the interface names. */
  predicate IsNamedMode(mode: uint8) { MODE_STA <= mode <= MODE_APSTA }

  /** Interface mode to driver mode; anything but the three named modes
      becomes the driver's NULL mode. */
  function ConvertToMode(mode: uint8): (r: DriverMode)
    ensures r != WifiModeNull <==> IsNamedMode(mode)
  {
    if mode == MODE_AP then WifiModeAp
    else if mode == MODE_STA then WifiModeSta
    else if mode == MODE_APSTA then WifiModeApsta
    else WifiModeNull
  }

  /** The interface value that names a driver mode. */
  function ModeOf(m: DriverMode): uint8 {
    match m
    case WifiModeNull => MODE_NULL
    case WifiModeSta => MODE_STA
    case WifiModeAp => MODE_AP
    case WifiModeApsta => MODE_APSTA
  }

  /** ConvertToMode is a bijection between the named modes and the non-NULL
      driver modes, with ModeOf its inverse; NULL maps to NULL. */
  lemma ConvertToModeInverse(mode: uint8, m: DriverMode)
    ensures ConvertToMode(ModeOf(m)) == m
    ensures IsNamedMode(mode) ==> ModeOf(ConvertToMode(mode)) == mode
    ensures !IsNamedMode(mode) ==> ConvertToMode(mode) == WifiModeNull
  {
  }

  /** The display name of a mode; None stands for the NULL pointer. */
  function GetModeStr(mode: uint8): (r: Option<string>)
    ensures r.Some? <==> ConvertToMode(mode) != WifiModeNull
  {
    if mode == MODE_AP then Some("Access Point")
    else if mode == MODE_STA then Some("Station")
    else if mode == MODE_APSTA then Some("Access Point + Station")
    else None
  }

  /** Different named modes have different names. */
  lemma ModeNamesDistinct(a: uint8, b: uint8)
    requires IsNamedMode(a) && IsNamedMode(b) && a != b
    ensures GetModeStr(a) != GetModeStr(b)
  {
  }

  /** The set-mode and set-credentials range check `mode >= MAX && mode <= NULL`. */
  function ModeGuardRejects(mode: uint8): (r: bool)
    ensures !r
  {
    mode >= MODE_MAX && mode <= MODE_NULL
  }

  // ---------------------------------------------------------------------
  // IPv4 addresses
  // ---------------------------------------------------------------------

  /** The four bytes of an address word, least significant first. */
  function IpBytes(addr: bv32): (r: seq<bv8>)
    ensures |r| == 4
  {
    [(addr & 0xFF) as bv8, ((addr >> 8) & 0xFF) as bv8,
     ((addr >> 16) & 0xFF) as bv8, ((addr >> 24) & 0xFF) as bv8]
  }

  /** The little-endian recombination of four bytes into an address word. */
  function AddrOfBytes(b: seq<bv8>): bv32
    requires |b| == 4
  {
    (b[0] as bv32) | ((b[1] as bv32) << 8) | ((b[2] as bv32) << 16) | ((b[3] as bv32) << 24)
  }

  /** Recombining the bytes gives the address back. */
  lemma IpBytesRoundTrip(addr: bv32)
    ensures AddrOfBytes(IpBytes(addr)) == addr
  {
    var b := IpBytes(addr);
    assert b[0] as bv32 == addr & 0xFF;
    assert b[1] as bv32 == (addr >> 8) & 0xFF;
    assert b[2] as bv32 == (addr >> 16) & 0xFF;
    assert b[3] as bv32 == (addr >> 24) & 0xFF;
  }

  /** Splitting a recombined word gives the bytes back. */
  lemma AddrOfBytesRoundTrip(b: seq<bv8>)
    requires |b| == 4
    ensures IpBytes(AddrOfBytes(b)) == b
  {
    WordBytes(b[0], b[1], b[2], b[3]);
  }

  lemma WordBytes(b0: bv8, b1: bv8, b2: bv8, b3: bv8)
    ensures var w := (b0 as bv32) | ((b1 as bv32) << 8) | ((b2 as bv32) << 16) | ((b3 as bv32) << 24);
      && (w & 0xFF) as bv8 == b0 && ((w >> 8) & 0xFF) as bv8 == b1
      && ((w >> 16) & 0xFF) as bv8 == b2 && ((w >> 24) & 0xFF) as bv8 == b3
  {
  }

  /** Writes the address into the first four bytes of `bytes`: bytes[0]
      receives the least significant byte (the stores run from index 3 down). */
  method IpToBytes(addr: bv32, bytes: array<bv8>)
    requires bytes.Length >= 4
    modifies bytes
    ensures bytes[..4] == IpBytes(addr)
    ensures bytes[4..] == old(bytes[4..])
  {
    bytes[3] := ((addr >> 24) & 0xFF) as bv8;
    bytes[2] := ((addr >> 16) & 0xFF) as bv8;
    bytes[1] := ((addr >> 8) & 0xFF) as bv8;
    bytes[0] := (addr & 0xFF) as bv8;
  }

  /** IpToBytes into a fresh four-byte field of the event data. */
  method IpField(addr: bv32) returns (r: seq<bv8>)
    ensures r == IpBytes(addr)
  {
    var bytes := new bv8[4];
    IpToBytes(addr, bytes);
    r := bytes[..];
  }

  // ---------------------------------------------------------------------
  // Scan results
  // ---------------------------------------------------------------------

  /** One access-point record, reduced to the fields the firmware shows. */
  datatype ApRecord = ApRecord(ssid: seq<bv8>, rssi: int, primary: nat)

  const ZERO_RECORD: ApRecord := ApRecord([], 0, 0)

  /** What the driver answers when asked for its records: whether the call
      succeeds, and the records it found. On success it returns as many of
      them as were asked for and reports that number back. A failing call
      is assumed to leave the count and the list alone; the driver's
      interface does not promise this. */
  datatype ScanDriver = ScanDriver(ok: bool, records: seq<ApRecord>)


  /** The count after clamping the request to the list length. */
  function RequestedCount(count: nat, listMax: nat): (r: nat)
    ensures r <= listMax && r <= count
    ensures r == count || r == listMax
  {
    if count > listMax then listMax else count
  }

  /** The record count CopyListToBuff stores: the clamped request, lowered to
      what the driver returned when the read succeeds. */
  function ReadCount(count: nat, listMax: nat, driver: ScanDriver): (r: nat)
    ensures r <= listMax && r <= count
    ensures driver.ok ==> r <= |driver.records|
  {
    var requested := RequestedCount(count, listMax);
    if driver.ok then Min(requested, |driver.records|) else requested
  }

  /** The list after CopyListToBuff: cleared, then the driver's first
      records copied in when the read succeeds. */
  function ListAfterRead(count: nat, listMax: nat, driver: ScanDriver): (list: seq<ApRecord>)
    ensures |list| == listMax
  {
    if driver.ok then
      driver.records[..ReadCount(count, listMax, driver)]
      + seq(listMax - ReadCount(count, listMax, driver), _ => ZERO_RECORD)
    else seq(listMax, _ => ZERO_RECORD)
  }

  /** A successful read lists exactly the driver's first records, as many as
      fit and were found; a failed read still stores the clamped count, over
      a list of cleared records. */
  lemma CopyListOutcome(count: nat, listMax: nat, driver: ScanDriver)
    ensures driver.ok ==>
      && ReadCount(count, listMax, driver) == Min(Min(count, listMax), |driver.records|)
      && ListAfterRead(count, listMax, driver)[..ReadCount(count, listMax, driver)]
         == driver.records[..ReadCount(count, listMax, driver)]
    ensures !driver.ok ==> ReadCount(count, listMax, driver) == Min(count, listMax)
    ensures forall k :: (if driver.ok then ReadCount(count, listMax, driver) else 0) <= k < listMax ==>
      ListAfterRead(count, listMax, driver)[k] == ZERO_RECORD
  {
    var n := ReadCount(count, listMax, driver);
    var list := ListAfterRead(count, listMax, driver);
    if driver.ok {
      assert list[..n] == driver.records[..n];
      assert forall k :: n <= k < listMax ==> list[k] == ZERO_RECORD;
    }
  }

  // ---------------------------------------------------------------------
  // Events
  // ---------------------------------------------------------------------

  /** Driver events the handler sees, with the payload fields it copies.
      MAC and BSSID fields are six bytes; an SSID field is 32 bytes of which
      the first ssidLen are meaningful. */
  datatype SdkEvent =
    | WifiApStart
    | WifiApStop
    | WifiApStaConnected(mac: seq<bv8>, aid: int)
    | WifiApStaDisconnected(mac: seq<bv8>, aid: int, reason: int)
    | WifiStaStart
    | WifiStaStop
    | WifiStaConnected(ssid: seq<bv8>, ssidLen: nat, bssid: seq<bv8>, authMode: int, aid: int)
    | WifiStaDisconnected(ssid: seq<bv8>, ssidLen: nat, bssid: seq<bv8>, reason: int)
    | WifiScanDone(status: nat, number: nat, scanId: nat)
    | WifiOther
    | IpApStaIpAssigned(mac: seq<bv8>, ip: bv32)
    | IpStaGotIp(ip: bv32, netmask: bv32, gateway: bv32, ipChanged: bool)
    | IpStaLostIp
    | IpOther
    | OtherBase

  const MAC_LEN: nat := 6
  const SSID_LEN: nat := 32

  /** The payload shapes the driver delivers. */
  predicate WellFormed(e: SdkEvent) {
    match e
    case WifiApStaConnected(mac, _) => |mac| == MAC_LEN
    case WifiApStaDisconnected(mac, _, _) => |mac| == MAC_LEN
    case WifiStaConnected(ssid, ssidLen, bssid, _, _) =>
      |ssid| == SSID_LEN && ssidLen <= SSID_LEN && |bssid| == MAC_LEN
    case WifiStaDisconnected(ssid, ssidLen, bssid, _) =>
      |ssid| == SSID_LEN && ssidLen <= SSID_LEN && |bssid| == MAC_LEN
    case WifiScanDone(_, number, _) => number < U16_RANGE
    case IpApStaIpAssigned(mac, _) => |mac| == MAC_LEN
    case _ => true
  }

  /** The events the interface passes to its callback. */
  datatype Event =
    | EventApStarted | EventApStopped
    | EventApStaConnected | EventApStaDisconnected | EventApStaGotIp
    | EventStaStart | EventStaStop
    | EventStaConnected | EventStaDisconnected | EventStaGotIp | EventStaLostIp
    | EventScanDone | EventScanList

  // Event data: one slot per kind of event.  An SSID slot keeps the copied
  // bytes; the zero bytes after them are left implicit.
  datatype ApStaConnectedData = ApStaConnectedData(mac: seq<bv8>, aid: int)
  datatype ApStaDisconnectedData = ApStaDisconnectedData(mac: seq<bv8>, aid: int, reason: int)
  datatype StaConnectedData =
    StaConnectedData(ssid: seq<bv8>, ssidLen: nat, bssid: seq<bv8>, authMode: int, aid: int)
  datatype StaDisconnectedData =
    StaDisconnectedData(ssid: seq<bv8>, ssidLen: nat, bssid: seq<bv8>, reason: int)
  datatype ScanDoneData = ScanDoneData(success: bool, count: nat)
  /** `records` stands for the pointer to the record list (empty for NULL). */
  datatype ScanListData = ScanListData(records: seq<ApRecord>, count: nat)
  datatype ApStaGotIpData = ApStaGotIpData(mac: seq<bv8>, ip: seq<bv8>)
  datatype StaGotIpData = StaGotIpData(ip: seq<bv8>, gateway: seq<bv8>, netmask: seq<bv8>, changed: bool)

  datatype EventData = EventData(
    apStaConnected: ApStaConnectedData,
    apStaDisconnected: ApStaDisconnectedData,
    staConnected: StaConnectedData,
    staDisconnected: StaDisconnectedData,
    scanDone: ScanDoneData,
    scanList: ScanListData,
    apStaGotIp: ApStaGotIpData,
    staGotIp: StaGotIpData)

  const ZERO_MAC: seq<bv8> := [0, 0, 0, 0, 0, 0]
  const ZERO_IP: seq<bv8> := [0, 0, 0, 0]

  /** The event data after the memset that starts every event. */
  const ZERO_EVENT_DATA: EventData := EventData(
    ApStaConnectedData(ZERO_MAC, 0),
    ApStaDisconnectedData(ZERO_MAC, 0, 0),
    StaConnectedData([], 0, ZERO_MAC, 0, 0),
    StaDisconnectedData([], 0, ZERO_MAC, 0),
    ScanDoneData(false, 0),
    ScanListData([], 0),
    ApStaGotIpData(ZERO_MAC, ZERO_IP),
    StaGotIpData(ZERO_IP, ZERO_IP, ZERO_IP, false))

  /** The scan-done slot: `status` is the driver's status word, 0 on success. */
  function ScanDoneDataOf(status: nat, number: nat): (d: ScanDoneData)
    ensures d.success <==> status == 0
    ensures d.count <= number
    ensures d.success ==> d.count == number
    ensures !d.success ==> d.count == 0
  {
    ScanDoneData(status == 0, if status == 0 then number else 0)
  }

  /** The data delivered with a non-scan event. */
  function EventDataOf(e: SdkEvent): EventData
    requires WellFormed(e) && !e.WifiScanDone?
  {
    match e
    case WifiApStaConnected(mac, aid) =>
      ZERO_EVENT_DATA.(apStaConnected := ApStaConnectedData(mac, aid))
    case WifiApStaDisconnected(mac, aid, reason) =>
      ZERO_EVENT_DATA.(apStaDisconnected := ApStaDisconnectedData(mac, aid, reason))
    case WifiStaConnected(ssid, ssidLen, bssid, authMode, aid) =>
      ZERO_EVENT_DATA.(staConnected := StaConnectedData(ssid[..ssidLen], ssidLen, bssid, authMode, aid))
    case WifiStaDisconnected(ssid, ssidLen, bssid, reason) =>
      ZERO_EVENT_DATA.(staDisconnected := StaDisconnectedData(ssid[..ssidLen], ssidLen, bssid, reason))
    case IpApStaIpAssigned(mac, ip) =>
      ZERO_EVENT_DATA.(apStaGotIp := ApStaGotIpData(mac, IpBytes(ip)))
    case IpStaGotIp(ip, netmask, gateway, changed) =>
      ZERO_EVENT_DATA.(staGotIp := StaGotIpData(IpBytes(ip), IpBytes(gateway), IpBytes(netmask), changed))
    case _ => ZERO_EVENT_DATA
  }

  /** The callback a non-scan event produces, if any. */
  function CallbackOf(e: SdkEvent): Option<Event>
    requires !e.WifiScanDone?
  {
    match e
    case WifiApStart => Some(EventApStarted)
    case WifiApStop => Some(EventApStopped)
    case WifiApStaConnected(_, _) => Some(EventApStaConnected)
    case WifiApStaDisconnected(_, _, _) => Some(EventApStaDisconnected)
    case WifiStaStart => Some(EventStaStart)
    case WifiStaStop => Some(EventStaStop)
    case WifiStaConnected(_, _, _, _, _) => Some(EventStaConnected)
    case WifiStaDisconnected(_, _, _, _) => Some(EventStaDisconnected)
    case IpApStaIpAssigned(_, _) => Some(EventApStaGotIp)
    case IpStaGotIp(_, _, _, _) => Some(EventStaGotIp)
    case IpStaLostIp => Some(EventStaLostIp)
    case _ => None
  }

  /** Each event's data holds its own payload and nothing from any earlier
      event: every slot but the event's own is as the memset left it, and
      the IP slots hold the address bytes. */
  lemma EventDataIsFresh(e: SdkEvent)
    requires WellFormed(e) && !e.WifiScanDone?
    ensures var d := EventDataOf(e);
      && (!e.WifiApStaConnected? ==> d.apStaConnected == ZERO_EVENT_DATA.apStaConnected)
      && (!e.WifiApStaDisconnected? ==> d.apStaDisconnected == ZERO_EVENT_DATA.apStaDisconnected)
      && (!e.WifiStaConnected? ==> d.staConnected == ZERO_EVENT_DATA.staConnected)
      && (!e.WifiStaDisconnected? ==> d.staDisconnected == ZERO_EVENT_DATA.staDisconnected)
      && d.scanDone == ZERO_EVENT_DATA.scanDone
      && d.scanList == ZERO_EVENT_DATA.scanList
      && (!e.IpApStaIpAssigned? ==> d.apStaGotIp == ZERO_EVENT_DATA.apStaGotIp)
      && (!e.IpStaGotIp? ==> d.staGotIp == ZERO_EVENT_DATA.staGotIp)
      && (e.IpApStaIpAssigned? ==> AddrOfBytes(d.apStaGotIp.ip) == e.ip)
      && (e.IpStaGotIp? ==>
            AddrOfBytes(d.staGotIp.ip) == e.ip && AddrOfBytes(d.staGotIp.gateway) == e.gateway
            && AddrOfBytes(d.staGotIp.netmask) == e.netmask)
  {
    match e
    case IpApStaIpAssigned(_, ip) =>
      IpBytesRoundTrip(ip);
    case IpStaGotIp(ip, netmask, gateway, _) =>
      IpBytesRoundTrip(ip);
      IpBytesRoundTrip(gateway);
      IpBytesRoundTrip(netmask);
    case _ =>
  }

  /** The callbacks of a scan-done event: SCAN_DONE with its status and
      count, then SCAN_LIST with the record list, only when the records were
      read and the scan succeeded. */
  function ScanCallbacks(status: nat, number: nat, listMax: nat, driver: ScanDriver): seq<(Event, EventData)> {
    [(EventScanDone, ScanDoneEventData(status, number))]
    + (if driver.ok && status == 0 then [(EventScanList, ScanListEventData(status, number, listMax, driver))]
       else [])
  }

  /** The data of the SCAN_DONE callback. */
  function ScanDoneEventData(status: nat, number: nat): EventData {
    ZERO_EVENT_DATA.(scanDone := ScanDoneDataOf(status, number))
  }

  /** The data of the SCAN_LIST callback: the SCAN_DONE data plus the list. */
  function ScanListEventData(status: nat, number: nat, listMax: nat, driver: ScanDriver): EventData {
    ScanDoneEventData(status, number).(scanList := ScanListData(ListAfterRead(number, listMax, driver),
                                                                ReadCount(number, listMax, driver)))
  }

  /** SCAN_LIST follows SCAN_DONE exactly when the read succeeded and the
      scan reported success; its count never exceeds the count SCAN_DONE
      reported nor the list length, and its records are the driver's. */
  lemma ScanListOnlyAfterGoodScan(status: nat, number: nat, listMax: nat, driver: ScanDriver)
    ensures ScanCallbacks(status, number, listMax, driver)[0].0 == EventScanDone
    ensures ScanCallbacks(status, number, listMax, driver)[0].1.scanDone.success == (status == 0)
    ensures |ScanCallbacks(status, number, listMax, driver)| == 2 <==> driver.ok && status == 0
    ensures |ScanCallbacks(status, number, listMax, driver)| == 2 ==>
      ScanListIsSound(ScanCallbacks(status, number, listMax, driver), listMax, driver)
  {
    CopyListOutcome(number, listMax, driver);
  }

  /** The SCAN_LIST callback (the second one) repeats the SCAN_DONE slot, and
      lists no more records than SCAN_DONE counted or the list holds, all of
      them the driver's. */
  ghost predicate ScanListIsSound(cbs: seq<(Event, EventData)>, listMax: nat, driver: ScanDriver)
    requires |cbs| == 2
  {
    && cbs[1].0 == EventScanList
    && cbs[1].1.scanDone == cbs[0].1.scanDone
    && cbs[1].1.scanList.count <= cbs[0].1.scanDone.count
    && cbs[1].1.scanList.count <= listMax
    && cbs[1].1.scanList.count <= |cbs[1].1.scanList.records|
    && cbs[1].1.scanList.count <= |driver.records|
    && cbs[1].1.scanList.records[..cbs[1].1.scanList.count] == driver.records[..cbs[1].1.scanList.count]
  }

  /** The station-connected flag after one event. */
  function StaConnAfter(staConn: bool, e: SdkEvent): bool {
    match e
    case WifiStaConnected(_, _, _, _, _) => true
    case WifiStaDisconnected(_, _, _, _) => false
    case _ => staConn
  }

  /** The flag after a run of events. */
  function StaConnAfterAll(staConn: bool, events: seq<SdkEvent>): bool
    decreases |events|
  {
    if events == [] then staConn
    else StaConnAfter(StaConnAfterAll(staConn, events[..|events| - 1]), events[|events| - 1])
  }

  predicate IsLinkEvent(e: SdkEvent) { e.WifiStaConnected? || e.WifiStaDisconnected? }

  /** Whether the station link is up: the last connect or disconnect event
      decides; with neither, the flag keeps its value. */
  lemma {:induction false} StaConnFollowsLastLinkEvent(staConn: bool, events: seq<SdkEvent>)
    ensures (forall k :: 0 <= k < |events| ==> !IsLinkEvent(events[k])) ==>
      StaConnAfterAll(staConn, events) == staConn
    ensures forall k :: (0 <= k < |events| && IsLinkEvent(events[k])
                         && (forall j :: k < j < |events| ==> !IsLinkEvent(events[j]))) ==>
      StaConnAfterAll(staConn, events) == events[k].WifiStaConnected?
    decreases |events|
  {
    if events != [] {
      var init := events[..|events| - 1];
      StaConnFollowsLastLinkEvent(staConn, init);
      assert forall k :: 0 <= k < |init| ==> init[k] == events[k];
    }
  }

  // ---------------------------------------------------------------------
  // Credentials
  // ---------------------------------------------------------------------

  datatype Credentials = Credentials(ssid: string, pass: string)

  /** The driver interface set-credentials configures; MAX is no interface. */
  datatype Interface = InterfaceSta | InterfaceAp | InterfaceMax

  function InterfaceFor(mode: uint8): (r: Interface)
    ensures r == InterfaceAp <==> mode == MODE_AP
    ensures r == InterfaceSta <==> mode == MODE_STA
  {
    if mode == MODE_AP then InterfaceAp
    else if mode == MODE_STA then InterfaceSta
    else InterfaceMax
  }

  // ---------------------------------------------------------------------
  // The interface state
  // ---------------------------------------------------------------------

  class WifiInterface {
    /** The length of the static record list. */
    const scanListMax: nat

    var staConn: bool
    var mode: DriverMode
    var apRecordList: seq<ApRecord>
    var apRecordCount: nat
    var evtData: EventData

    /** The callbacks delivered so far, each with the event data it saw. */
    ghost var callbacks: seq<(Event, EventData)>
    /** The modes handed to the driver so far. */
    ghost var driverModes: seq<DriverMode>

    ghost predicate Valid()
      reads this
    {
      |apRecordList| == scanListMax && apRecordCount <= scanListMax && scanListMax < U16_RANGE
    }

    /** The zero-initialised context. */
    constructor(listMax: nat)
      requires listMax < U16_RANGE
      ensures Valid() && scanListMax == listMax
      ensures !staConn && mode == WifiModeNull && apRecordCount == 0
      ensures apRecordList == seq(listMax, _ => ZERO_RECORD) && evtData == ZERO_EVENT_DATA
      ensures callbacks == [] && driverModes == []
    {
      scanListMax := listMax;
      staConn := false;
      mode := WifiModeNull;
      apRecordList := seq(listMax, _ => ZERO_RECORD);
      apRecordCount := 0;
      evtData := ZERO_EVENT_DATA;
      callbacks := [];
      driverModes := [];
    }

    /** Clears the list, clamps the count, reads the driver's records. */
    method CopyListToBuff(count: nat, driver: ScanDriver) returns (success: bool)
      requires Valid() && count < U16_RANGE
      modifies this
      ensures Valid()
      ensures success == driver.ok
      ensures apRecordCount == ReadCount(count, scanListMax, driver)
      ensures apRecordList == ListAfterRead(count, scanListMax, driver)
      ensures staConn == old(staConn) && mode == old(mode) && evtData == old(evtData)
      ensures callbacks == old(callbacks) && driverModes == old(driverModes)
    {
      apRecordList := seq(scanListMax, _ => ZERO_RECORD);
      var n := count;
      if n > scanListMax {
        n := scanListMax;
      }
      if driver.ok {
        n := Min(n, |driver.records|);
        apRecordList := driver.records[..n] + apRecordList[n..];
        success := true;
      } else {
        success := false;
      }
      apRecordCount := n;
    }

    /** The event handler: clears the event data, updates the link flag,
        fills the event's slot and calls back. */
    method HandleEvent(e: SdkEvent, driver: ScanDriver)
      requires Valid() && WellFormed(e)
      modifies this
      ensures Valid()
      ensures staConn == StaConnAfter(old(staConn), e)
      ensures mode == old(mode) && driverModes == old(driverModes)
      ensures !e.WifiScanDone? ==>
        && evtData == EventDataOf(e)
        && apRecordList == old(apRecordList) && apRecordCount == old(apRecordCount)
        && callbacks == old(callbacks) +
             (match CallbackOf(e) case None => [] case Some(ev) => [(ev, EventDataOf(e))])
      ensures e.WifiScanDone? ==>
        && apRecordCount == ReadCount(e.number, scanListMax, driver)
        && apRecordList == ListAfterRead(e.number, scanListMax, driver)
        && callbacks == old(callbacks) + ScanCallbacks(e.status, e.number, scanListMax, driver)
        && evtData == callbacks[|callbacks| - 1].1
    {
      evtData := ZERO_EVENT_DATA;
      match e {
        case WifiApStart =>
          callbacks := callbacks + [(EventApStarted, evtData)];
        case WifiApStop =>
          callbacks := callbacks + [(EventApStopped, evtData)];
        case WifiApStaConnected(mac, aid) =>
          evtData := evtData.(apStaConnected := ApStaConnectedData(mac, aid));
          callbacks := callbacks + [(EventApStaConnected, evtData)];
        case WifiApStaDisconnected(mac, aid, reason) =>
          evtData := evtData.(apStaDisconnected := ApStaDisconnectedData(mac, aid, reason));
          callbacks := callbacks + [(EventApStaDisconnected, evtData)];
        case WifiStaStart =>
          callbacks := callbacks + [(EventStaStart, evtData)];
        case WifiStaStop =>
          callbacks := callbacks + [(EventStaStop, evtData)];
        case WifiStaConnected(ssid, ssidLen, bssid, authMode, aid) =>
          staConn := true;
          evtData := evtData.(staConnected := StaConnectedData(ssid[..ssidLen], ssidLen, bssid, authMode, aid));
          callbacks := callbacks + [(EventStaConnected, evtData)];
        case WifiStaDisconnected(ssid, ssidLen, bssid, reason) =>
          staConn := false;
          evtData := evtData.(staDisconnected := StaDisconnectedData(ssid[..ssidLen], ssidLen, bssid, reason));
          callbacks := callbacks + [(EventStaDisconnected, evtData)];
        case WifiScanDone(status, number, _) =>
          evtData := evtData.(scanDone := ScanDoneData(status == 0, if status == 0 then number else 0));
          callbacks := callbacks + [(EventScanDone, evtData)];
          var success := CopyListToBuff(number, driver);
          if success && status == 0 {
            evtData := evtData.(scanList := ScanListData(apRecordList, apRecordCount));
            callbacks := callbacks + [(EventScanList, evtData)];
          }
        case WifiOther =>
        case IpApStaIpAssigned(mac, ip) =>
          var ipBytes := IpField(ip);
          evtData := evtData.(apStaGotIp := ApStaGotIpData(mac, ipBytes));
          callbacks := callbacks + [(EventApStaGotIp, evtData)];
        case IpStaGotIp(ip, netmask, gateway, changed) =>
          var ipBytes := IpField(ip);
          var gwBytes := IpField(gateway);
          var maskBytes := IpField(netmask);
          evtData := evtData.(staGotIp := StaGotIpData(ipBytes, gwBytes, maskBytes, changed));
          callbacks := callbacks + [(EventStaGotIp, evtData)];
        case IpStaLostIp =>
          callbacks := callbacks + [(EventStaLostIp, evtData)];
        case IpOther =>
        case OtherBase =>
      }
    }

    /** Connect: asks the driver to connect only while the station is not
        connected; `driverOk` is the driver's answer. */
    method Connect(driverOk: bool) returns (status: Status, connectIssued: bool)
      ensures connectIssued <==> !staConn
      ensures status == StatusOk <==> !staConn && driverOk
    {
      connectIssued := false;
      if !staConn {
        connectIssued := true;
        if driverOk {
          return StatusOk, connectIssued;
        }
      }
      status := StatusError;
    }

    /** Disconnect, whose guard tests the same condition as Connect's: it asks
        the driver to disconnect only while the station is NOT connected, and
        refuses while it is. */
    method Disconnect(driverOk: bool) returns (status: Status, disconnectIssued: bool)
      ensures disconnectIssued <==> !staConn
      ensures status == StatusOk <==> !staConn && driverOk
      ensures staConn ==> status == StatusError
    {
      disconnectIssued := false;
      if !staConn {
        disconnectIssued := true;
        if !driverOk {
          return StatusError, disconnectIssued;
        }
        return StatusOk, disconnectIssued;
      }
      status := StatusError;
    }

    /** SetMode: the range check lets every value through, so the driver
        always receives ConvertToMode(newMode), NULL for unnamed values. */
    method SetMode(newMode: uint8, driverOk: bool) returns (status: Status)
      modifies this
      ensures mode == ConvertToMode(newMode)
      ensures driverModes == old(driverModes) + [ConvertToMode(newMode)]
      ensures status == StatusOk <==> driverOk
      ensures staConn == old(staConn) && apRecordList == old(apRecordList)
      ensures apRecordCount == old(apRecordCount) && evtData == old(evtData)
      ensures callbacks == old(callbacks)
    {
      if ModeGuardRejects(newMode) {
        return StatusError;
      }
      mode := ConvertToMode(newMode);
      driverModes := driverModes + [mode];
      if !driverOk {
        return StatusError;
      }
      status := StatusOk;
    }

    /** SetCredentials: picks the interface from the mode and configures it;
        `configureOk` is the driver's answer to the get/set of the interface
        configuration. The interface configuration itself is not modelled. */
    method SetCredentials(newMode: uint8, cred: Option<Credentials>, configureOk: bool)
      returns (status: Status, configured: Option<Interface>)
      ensures configured == (if cred.None? then None else Some(InterfaceFor(newMode)))
      ensures status == StatusOk <==>
        cred.Some? && (newMode == MODE_AP || newMode == MODE_STA) && configureOk
    {
      if cred.None? {
        return StatusError, None;
      }
      if ModeGuardRejects(newMode) {
        return StatusError, None;
      }
      var intf := InterfaceFor(newMode);
      configured := Some(intf);
      // The configuration switch has no case for MAX and fails on it.
      if intf != InterfaceMax && configureOk {
        status := StatusOk;
      } else {
        status := StatusError;
      }
    }
  }
}
