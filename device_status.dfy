/**
 * The phone's status screen: the address the desktop should poll, shown as a
 * dotted quad, and the three switches for the SMS permission, the battery
 * exemption and the background service. Platform queries (permissions,
 * battery optimisation, the network) are given as parameters; the switches
 * and labels are fields.
 */
module DeviceStatus {
  import opened Wrappers
  import Text

  // ---------------------------------------------------------------------------
  // The Wi-Fi address as a dotted quad

  /** Kotlin's `Int`. */
  newtype Int32 = x: int | -0x8000_0000 <= x < 0x8000_0000

  const TwoTo32: int := 0x1_0000_0000

  /** The 32 bits of `ip` read as an unsigned number (two's complement). */
  function Unsigned(ip: Int32): (u: nat)
    ensures u < TwoTo32
    ensures ip >= 0 ==> u == ip as int
    ensures ip < 0 ==> u == ip as int + TwoTo32
  {
    (ip as int) % TwoTo32
  }

  /** `ip shr (8 * k) and 0xff`: byte `k` of the address, the least significant first. */
  function Octet(ip: Int32, k: nat): (o: nat)
    requires k < 4
    ensures o < 256
  {
    var scale := if k == 0 then 1 else if k == 1 then 0x100 else if k == 2 then 0x1_0000 else 0x100_0000;
    (Unsigned(ip) / scale) % 256
  }

  /** Dividing by 256 and again by `scale` is dividing by `256 * scale`. */
  lemma DivTwice(u: nat, scale: nat)
    requires scale == 0x100 || scale == 0x1_0000
    ensures u / (0x100 * scale) == (u / 0x100) / scale
  {
    var q := u / 0x100;
    var r := q / scale;
    assert u == u % 0x100 + 0x100 * (r * scale + q % scale);
    assert u == 0x100 * scale * r + (u % 0x100 + 0x100 * (q % scale));
  }

  /** The four bytes, in the order they are printed, make up the address's 32 bits. */
  lemma OctetsReconstruct(ip: Int32)
    ensures Octet(ip, 0) + 0x100 * Octet(ip, 1) + 0x1_0000 * Octet(ip, 2) + 0x100_0000 * Octet(ip, 3) == Unsigned(ip)
  {
    var u := Unsigned(ip);
    var q1 := u / 0x100;
    var q2 := q1 / 0x100;
    var q3 := q1 / 0x1_0000;
    DivTwice(u, 0x100);
    DivTwice(u, 0x1_0000);
    assert Octet(ip, 0) == u % 0x100 && Octet(ip, 1) == q1 % 0x100;
    assert Octet(ip, 2) == q2 % 0x100 && Octet(ip, 3) == q3 % 0x100;
    assert q3 == q2 / 0x100;
    assert u == u % 0x100 + 0x100 * q1;
    assert q1 == q1 % 0x100 + 0x100 * q2;
    assert q2 == q2 % 0x100 + 0x100 * q3;
    assert q3 < 0x100;
  }

  /** The address `String.format("%d.%d.%d.%d", ...)` prints, "0.0.0.0" for an unset address. */
  function FormatIp(ip: Int32): (s: string)
    ensures s != [] && Text.IsDigit(s[0])
  {
    if ip == 0 then "0.0.0.0"
    else
      Quad(Octet(ip, 0), Octet(ip, 1), Octet(ip, 2), Octet(ip, 3))
  }

  /** A piece of a dotted quad read as a byte: decimal digits worth less than 256. */
  function ByteOf(part: string): (r: Option<nat>)
    ensures r.Some? ==> r.value < 256
  {
    if Text.AllDigits(part) && Text.DecimalValue(part) < 256 then Some(Text.DecimalValue(part)) else None
  }

  /** Reading a dotted quad back: four decimal bytes, the first the least significant. */
  function ParseQuad(s: string): (r: Option<nat>)
    ensures r.Some? ==> r.value < TwoTo32
  {
    var parts := Text.SplitOn(s, '.');
    if |parts| != 4 then None
    else match (ByteOf(parts[0]), ByteOf(parts[1]), ByteOf(parts[2]), ByteOf(parts[3]))
      case (Some(a), Some(b), Some(c), Some(d)) => Some(a + 0x100 * b + 0x1_0000 * c + 0x100_0000 * d)
      case _ => None
  }

  /** A decimal rendering holds no dot. */
  lemma DigitsHoldNoDot(d: string)
    requires Text.AllDigits(d)
    ensures '.' !in d
  {
  }

  /** Four decimal renderings joined by dots split back into the four. */
  lemma {:induction false} QuadSplit(da: string, db: string, dc: string, dd: string)
    requires Text.AllDigits(da) && Text.AllDigits(db) && Text.AllDigits(dc) && Text.AllDigits(dd)
    ensures Text.SplitOn(da + "." + (db + "." + (dc + "." + dd)), '.') == [da, db, dc, dd]
  {
    assert "." == ['.'];
    DigitsHoldNoDot(da);
    DigitsHoldNoDot(db);
    DigitsHoldNoDot(dc);
    DigitsHoldNoDot(dd);
    var r3 := dc + ['.'] + dd;
    var r2 := db + ['.'] + r3;
    Text.SplitOnJoin(dc, '.', dd);
    Text.SplitOnJoin(db, '.', r3);
    Text.SplitOnJoin(da, '.', r2);
    assert Text.SplitOn(dd, '.') == [dd];
    assert [da] + ([db] + ([dc] + [dd])) == [da, db, dc, dd];
  }

  /** The dotted quad of four bytes. */
  function Quad(a: nat, b: nat, c: nat, d: nat): (s: string)
    ensures s != [] && Text.IsDigit(s[0])
  {
    Text.NatToDecimal(a) + "." + (Text.NatToDecimal(b) + "." + (Text.NatToDecimal(c) + "." + Text.NatToDecimal(d)))
  }

  /** A byte printed in decimal reads back as itself. */
  lemma ByteRoundTrip(a: nat)
    requires a < 256
    ensures ByteOf(Text.NatToDecimal(a)) == Some(a)
  {
    Text.DecimalRoundTrip(a);
  }

  /** Four decimal bytes joined by dots read back as their sum. */
  lemma ParseDotted(da: string, db: string, dc: string, dd: string, a: nat, b: nat, c: nat, d: nat)
    requires Text.AllDigits(da) && Text.AllDigits(db) && Text.AllDigits(dc) && Text.AllDigits(dd)
    requires ByteOf(da) == Some(a) && ByteOf(db) == Some(b) && ByteOf(dc) == Some(c) && ByteOf(dd) == Some(d)
    ensures ParseQuad(da + "." + (db + "." + (dc + "." + dd))) == Some(a + 0x100 * b + 0x1_0000 * c + 0x100_0000 * d)
  {
    var parts := Text.SplitOn(da + "." + (db + "." + (dc + "." + dd)), '.');
    QuadSplit(da, db, dc, dd);
    assert parts[0] == da && parts[1] == db && parts[2] == dc && parts[3] == dd;
    var bytes := (ByteOf(parts[0]), ByteOf(parts[1]), ByteOf(parts[2]), ByteOf(parts[3]));
    assert bytes == (Some(a), Some(b), Some(c), Some(d));
  }

  /** Four byte values printed as a dotted quad read back as their sum. */
  lemma QuadRoundTrip(a: nat, b: nat, c: nat, d: nat)
    requires a < 256 && b < 256 && c < 256 && d < 256
    ensures ParseQuad(Quad(a, b, c, d)) == Some(a + 0x100 * b + 0x1_0000 * c + 0x100_0000 * d)
  {
    ByteRoundTrip(a);
    ByteRoundTrip(b);
    ByteRoundTrip(c);
    ByteRoundTrip(d);
    ParseDotted(Text.NatToDecimal(a), Text.NatToDecimal(b), Text.NatToDecimal(c), Text.NatToDecimal(d), a, b, c, d);
  }

  /** The unset address's rendering. */
  lemma ZeroQuad()
    ensures Quad(0, 0, 0, 0) == "0.0.0.0"
    ensures ParseQuad("0.0.0.0") == Some(0)
  {
    assert Text.NatToDecimal(0) == "0";
    QuadRoundTrip(0, 0, 0, 0);
  }

  /** The printed address reads back as the address's 32 bits. */
  lemma FormatIpRoundTrip(ip: Int32)
    ensures ParseQuad(FormatIp(ip)) == Some(Unsigned(ip))
  {
    if ip == 0 {
      ZeroQuad();
    } else {
      OctetsRoundTrip(ip);
    }
  }

  /** The four bytes of an address, printed as a dotted quad, read back as its 32 bits. */
  lemma OctetsRoundTrip(ip: Int32)
    ensures ParseQuad(Quad(Octet(ip, 0), Octet(ip, 1), Octet(ip, 2), Octet(ip, 3))) == Some(Unsigned(ip))
  {
    QuadRoundTrip(Octet(ip, 0), Octet(ip, 1), Octet(ip, 2), Octet(ip, 3));
    OctetsReconstruct(ip);
  }

  /** The printed address is "0.0.0.0" exactly when the address is unset. */
  lemma FormatIpUnset(ip: Int32)
    ensures FormatIp(ip) == "0.0.0.0" <==> ip == 0
  {
    if FormatIp(ip) == "0.0.0.0" {
      FormatIpRoundTrip(ip);
      ZeroQuad();
    }
  }

  // ---------------------------------------------------------------------------
  // Which address is shown

  /** An address of the active network's link. */
  datatype LinkAddress = V4(hostAddress: string, loopback: bool) | V6(hostAddress: string)

  /** What the network services report: the link's addresses (None without link properties) and the Wi-Fi integer address. */
  datatype Network = Network(links: Option<seq<LinkAddress>>, wifiIp: Int32)

  predicate Usable(a: LinkAddress) {
    a.V4? && !a.loopback
  }

  /** The first usable link address. */
  function FirstUsable(links: seq<LinkAddress>): (r: Option<nat>)
    ensures r.Some? ==> r.value < |links| && Usable(links[r.value]) && forall j :: 0 <= j < r.value ==> !Usable(links[j])
    ensures r.None? ==> forall j :: 0 <= j < |links| ==> !Usable(links[j])
  {
    if links == [] then None
    else if Usable(links[0]) then Some(0)
    else match FirstUsable(links[1..])
      case None => None
      case Some(k) => Some(k + 1)
  }

  /** The address a reachable network query finds: the first usable link address, else the printed Wi-Fi address. */
  function AddressOf(net: Network): string {
    if net.links.Some? && FirstUsable(net.links.value).Some? then net.links.value[FirstUsable(net.links.value).value].hostAddress
    else FormatIp(net.wifiIp)
  }

  /** The label for an address that failed to be found. */
  const Unknown: string := "Bilinmiyor"

  /**
   * `getIpAddress`: None for `net` stands for an exception on the way, which
   * gives "Bilinmiyor". Otherwise the first non-loopback IPv4 link address
   * wins, and the Wi-Fi integer address, printed, is the fallback.
   */
  method GetIpAddress(net: Option<Network>) returns (ip: string)
    ensures net.None? ==> ip == Unknown
    ensures net.Some? ==> ip == AddressOf(net.value)
  {
    if net.None? {
      return Unknown;
    }
    if net.value.links.Some? {
      var links := net.value.links.value;
      for i := 0 to |links|
        invariant forall j :: 0 <= j < i ==> !Usable(links[j])
      {
        if links[i].V4? && !links[i].loopback {
          return links[i].hostAddress;
        }
      }
    }
    var wifiIp := net.value.wifiIp;
    if wifiIp == 0 {
      return "0.0.0.0";
    }
    return FormatIp(wifiIp);
  }

  /** The address can be polled: neither unset nor unknown. */
  predicate Reachable(ip: string) {
    ip != "0.0.0.0" && ip != Unknown
  }

  /** Falling back to the Wi-Fi address, the screen offers the service exactly when that address is set. */
  lemma FallbackReachable(ip: Int32)
    ensures Reachable(FormatIp(ip)) <==> ip != 0
  {
    FormatIpUnset(ip);
  }

  // ---------------------------------------------------------------------------
  // The screen

  class StatusScreen {
    var permissionChecked: bool
    var permissionEnabled: bool
    var backgroundChecked: bool
    var backgroundEnabled: bool
    var serviceChecked: bool
    var serviceEnabled: bool
    var ipText: string
    var statusText: string
    /** How many start and stop requests went to the service. */
    var serviceStarts: nat
    var serviceStops: nat

    constructor ()
      ensures !permissionChecked && !backgroundChecked && !serviceChecked
      ensures serviceStarts == 0 && serviceStops == 0
    {
      permissionChecked, permissionEnabled := false, true;
      backgroundChecked, backgroundEnabled := false, true;
      serviceChecked, serviceEnabled := false, true;
      ipText, statusText := "", "";
      serviceStarts, serviceStops := 0, 0;
    }

    /** `stopSmsService`. */
    method StopSmsService()
      modifies this
      ensures serviceStops == old(serviceStops) + 1 && statusText == "Service Stopped."
      ensures serviceStarts == old(serviceStarts) && serviceChecked == old(serviceChecked) && serviceEnabled == old(serviceEnabled)
      ensures ipText == old(ipText)
      ensures permissionChecked == old(permissionChecked) && permissionEnabled == old(permissionEnabled)
      ensures backgroundChecked == old(backgroundChecked) && backgroundEnabled == old(backgroundEnabled)
    {
      serviceStops := serviceStops + 1;
      statusText := "Service Stopped.";
    }

    /**
     * `startSmsService`, run from the service switch's listener: on success
     * the switch stays on; when starting throws (`failure` holds its message)
     * the switch goes off without the listener running again.
     */
    method StartSmsService(failure: Option<string>)
      modifies this
      ensures failure.None? ==> serviceStarts == old(serviceStarts) + 1 && serviceChecked
                                && statusText == "Service Started. Running in background."
      ensures failure.Some? ==> serviceStarts == old(serviceStarts) && !serviceChecked
                                && statusText == "Error starting service: " + failure.value
      ensures serviceStops == old(serviceStops) && serviceEnabled == old(serviceEnabled) && ipText == old(ipText)
      ensures permissionChecked == old(permissionChecked) && permissionEnabled == old(permissionEnabled)
      ensures backgroundChecked == old(backgroundChecked) && backgroundEnabled == old(backgroundEnabled)
    {
      if failure.None? {
        serviceStarts := serviceStarts + 1;
        statusText := "Service Started. Running in background.";
        serviceChecked := true;
      } else {
        statusText := "Error starting service: " + failure.value;
        serviceChecked := false;
      }
    }

    /** The service switch flipped to `isChecked`: its listener starts or stops the service. */
    method ServiceSwitchChanged(isChecked: bool, failure: Option<string>)
      modifies this
      ensures isChecked ==> serviceStops == old(serviceStops)
                            && (failure.None? <==> serviceChecked)
                            && serviceStarts == old(serviceStarts) + (if failure.None? then 1 else 0)
      ensures !isChecked ==> !serviceChecked && serviceStops == old(serviceStops) + 1 && serviceStarts == old(serviceStarts)
      ensures isChecked && failure.None? ==> statusText == "Service Started. Running in background."
      ensures isChecked && failure.Some? ==> statusText == "Error starting service: " + failure.value
      ensures !isChecked ==> statusText == "Service Stopped."
      ensures serviceEnabled == old(serviceEnabled) && ipText == old(ipText)
      ensures permissionChecked == old(permissionChecked) && permissionEnabled == old(permissionEnabled)
      ensures backgroundChecked == old(backgroundChecked) && backgroundEnabled == old(backgroundEnabled)
    {
      serviceChecked := isChecked;
      if isChecked {
        StartSmsService(failure);
      } else {
        StopSmsService();
      }
    }

    /**
     * `refreshStatus`, given whether the SMS permissions are granted, whether
     * the app is exempt from battery optimisation, and the network: each of
     * the first two switches shows its state and is enabled only while it is
     * off; a reachable address is shown and enables the service switch,
     * otherwise the service switch goes off (stopping the service through its
     * listener if it was on) and is disabled.
     */
    method RefreshStatus(hasPerms: bool, ignoringBattery: bool, net: Option<Network>) returns (ip: string)
      modifies this
      ensures permissionChecked == hasPerms && permissionEnabled == !hasPerms
      ensures backgroundChecked == ignoringBattery && backgroundEnabled == !ignoringBattery
      ensures net.None? ==> ip == Unknown
      ensures net.Some? ==> ip == AddressOf(net.value)
      ensures Reachable(ip) ==> ipText == ip && serviceEnabled && serviceChecked == old(serviceChecked)
                                    && statusText == old(statusText) && serviceStops == old(serviceStops)
      ensures !Reachable(ip) ==> ipText == "No Wifi" && !serviceChecked && !serviceEnabled
                                     && statusText == "Please connect to Wifi first."
                                     && serviceStops == old(serviceStops) + (if old(serviceChecked) then 1 else 0)
      ensures serviceStarts == old(serviceStarts)
    {
      permissionChecked := hasPerms;
      permissionEnabled := !hasPerms;
      backgroundChecked := ignoringBattery;
      backgroundEnabled := !ignoringBattery;
      ip := GetIpAddress(net);
      if Reachable(ip) {
        ipText := ip;
        serviceEnabled := true;
      } else {
        DisableService();
      }
    }

    /** No reachable address: the service switch goes off (stopping the service through its listener if it was on) and is disabled. */
    method DisableService()
      modifies this
      ensures ipText == "No Wifi" && !serviceChecked && !serviceEnabled
      ensures statusText == "Please connect to Wifi first."
      ensures serviceStops == old(serviceStops) + (if old(serviceChecked) then 1 else 0)
      ensures serviceStarts == old(serviceStarts)
      ensures permissionChecked == old(permissionChecked) && permissionEnabled == old(permissionEnabled)
      ensures backgroundChecked == old(backgroundChecked) && backgroundEnabled == old(backgroundEnabled)
    {
      ipText := "No Wifi";
      if serviceChecked {
        serviceChecked := false;
        StopSmsService();
      }
      serviceEnabled := false;
      statusText := "Please connect to Wifi first.";
    }
  }
}
