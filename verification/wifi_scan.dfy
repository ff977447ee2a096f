/** The WiFi scan sanitiser inside `scan_wifi_networks`: the host scan is an input
    (a list of raw entries or a failure cause); entries without an SSID are dropped
    and a missing MAC or channel becomes "Unknown". */
module WifiScan {
  import opened Results

  /** One raw entry of the host scan. All fields are text; the signal level only passes through. */
  datatype RawNetwork = RawNetwork(ssid: string, mac: string, signal_level: string,
                                   channel: string, security: string)

  datatype ScannedWifiNetwork = ScannedWifiNetwork(ssid: string, mac: string, signal_level: string,
                                                   channel: string, security: string)

  /** What the host scan returned: its entries, or the rendering of its error. */
  datatype ScanOutcome = Scanned(networks: seq<RawNetwork>) | ScanError(cause: string)

  const Unknown := "Unknown"
  const ScanFailedPrefix := "WiFi scan failed: "

  /** An entry the sanitiser keeps. */
  predicate Kept(n: RawNetwork)
  {
    n.ssid != ""
  }

  /** A sanitised entry: SSID, MAC and channel are all present. */
  predicate Complete(n: ScannedWifiNetwork)
  {
    n.ssid != "" && n.mac != "" && n.channel != ""
  }

  /** Replaces an empty field by "Unknown". */
  function OrUnknown(field: string): (r: string)
    ensures r != ""
    ensures field != "" ==> r == field
    ensures field == "" ==> r == Unknown
  {
    if field == "" then Unknown else field
  }

  /** Sanitises one kept entry: SSID, signal level and security pass through unchanged. */
  function Clean(n: RawNetwork): (r: ScannedWifiNetwork)
    requires Kept(n)
    ensures Complete(r)
    ensures r.ssid == n.ssid && r.signal_level == n.signal_level && r.security == n.security
    ensures r.mac == OrUnknown(n.mac) && r.channel == OrUnknown(n.channel)
  {
    ScannedWifiNetwork(n.ssid, OrUnknown(n.mac), n.signal_level, OrUnknown(n.channel), n.security)
  }

  /** The `filter_map` over the raw scan, in scan order. */
  function Sanitize(raw: seq<RawNetwork>): (r: seq<ScannedWifiNetwork>)
    ensures |r| <= |raw|
    ensures forall j :: 0 <= j < |r| ==> Complete(r[j])
    ensures (forall i :: 0 <= i < |raw| ==> Kept(raw[i])) ==> |r| == |raw|
    decreases |raw|
  {
    if |raw| == 0 then []
    else (if Kept(raw[0]) then [Clean(raw[0])] else []) + Sanitize(raw[1..])
  }

  /** `scan_wifi_networks`: a failed scan yields only an error message with a fixed
      prefix, never a partial list; a successful one yields the sanitised entries. */
  function ScanWifiNetworks(scan: ScanOutcome): (r: Result<seq<ScannedWifiNetwork>>)
    ensures r.Success? <==> scan.Scanned?
    ensures r.Failure? ==> r.error == ScanFailedPrefix + scan.cause
    ensures r.Success? ==> r.value == Sanitize(scan.networks)
  {
    match scan
    case Scanned(networks) => Success(Sanitize(networks))
    case ScanError(cause) => Failure(ScanFailedPrefix + cause)
  }

  /** Sanitising distributes over concatenation of raw scans. */
  lemma {:induction false} SanitizeAppend(a: seq<RawNetwork>, b: seq<RawNetwork>)
    ensures Sanitize(a + b) == Sanitize(a) + Sanitize(b)
    decreases |a|
  {
    if |a| == 0 {
      assert a + b == b;
    } else {
      assert (a + b)[1..] == a[1..] + b;
      SanitizeAppend(a[1..], b);
    }
  }

  /** The positions of the kept raw entries, in increasing order. */
  function Survivors(raw: seq<RawNetwork>): (r: seq<nat>)
    ensures forall j :: 0 <= j < |r| ==> r[j] < |raw| && Kept(raw[r[j]])
    ensures forall j, k :: 0 <= j < k < |r| ==> r[j] < r[k]
    ensures forall i :: 0 <= i < |raw| && Kept(raw[i]) ==> i in r
    decreases |raw|
  {
    if |raw| == 0 then []
    else
      var n := |raw| - 1;
      var front := Survivors(raw[..n]);
      assert forall j :: 0 <= j < |front| ==> raw[..n][front[j]] == raw[front[j]];
      front + (if Kept(raw[n]) then [n] else [])
  }

  /** The sanitised scan is exactly the cleaned kept entries, in their original order:
      an order-preserving subsequence of the raw scan, and no kept entry is lost. */
  lemma {:induction false} SanitizeIsCleanedSurvivors(raw: seq<RawNetwork>)
    ensures |Sanitize(raw)| == |Survivors(raw)|
    ensures forall j :: 0 <= j < |Survivors(raw)| ==>
              Sanitize(raw)[j] == Clean(raw[Survivors(raw)[j]])
    decreases |raw|
  {
    if |raw| > 0 {
      var n := |raw| - 1;
      var front := raw[..n];
      assert raw == front + [raw[n]];
      SanitizeAppend(front, [raw[n]]);
      SanitizeIsCleanedSurvivors(front);
      assert Sanitize([raw[n]]) == (if Kept(raw[n]) then [Clean(raw[n])] else []);
      forall j | 0 <= j < |Survivors(front)|
        ensures front[Survivors(front)[j]] == raw[Survivors(front)[j]]
      {
      }
    }
  }

  /** A sanitised entry read back as a raw one. */
  function AsRaw(n: ScannedWifiNetwork): (r: RawNetwork)
    ensures Complete(n) ==> Kept(r) && Clean(r) == n
  {
    RawNetwork(n.ssid, n.mac, n.signal_level, n.channel, n.security)
  }

  function AllAsRaw(s: seq<ScannedWifiNetwork>): (r: seq<RawNetwork>)
    ensures |r| == |s|
    ensures forall j :: 0 <= j < |s| ==> r[j] == AsRaw(s[j])
  {
    seq(|s|, j requires 0 <= j < |s| => AsRaw(s[j]))
  }

  /** Sanitising complete entries changes nothing. */
  lemma {:induction false} SanitizeComplete(s: seq<ScannedWifiNetwork>)
    requires forall j :: 0 <= j < |s| ==> Complete(s[j])
    ensures Sanitize(AllAsRaw(s)) == s
    decreases |s|
  {
    if |s| > 0 {
      assert AllAsRaw(s)[1..] == AllAsRaw(s[1..]);
      SanitizeComplete(s[1..]);
    }
  }

  /** Sanitising twice is the same as sanitising once. */
  lemma SanitizeIdempotent(raw: seq<RawNetwork>)
    ensures Sanitize(AllAsRaw(Sanitize(raw))) == Sanitize(raw)
  {
    SanitizeComplete(Sanitize(raw));
  }
}
