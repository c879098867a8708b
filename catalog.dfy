/**
 * The network catalog: the numbered listing printed after each scan, the
 * BSSID lookup used by the "details" and "test passwords" options, and the
 * details view.
 */
module Catalog {
  import opened Text
  import opened Records
  import opened Security

  // ---------------------------------------------------------------------------
  // The listing printed after a scan.
  // ---------------------------------------------------------------------------

  /** One line of the listing: 1-based position, SSID, BSSID, signal and security label. */
  datatype Row = Row(position: nat, ssid: Value, bssid: Value, signal: Value, auth: Auth)

  /**
   * What printing the listing amounts to: either every network was listed and
   * the list is handed back, or the record at `index` (0-based) raised a
   * TypeError after the rows before it were printed.
   */
  datatype Display = Shown(rows: seq<Row>, result: seq<Record>) | Raised(rows: seq<Row>, index: nat)

  /**
   * `net.get('capabilities', '')` when it is a string; None when it holds a
   * value that the substring test `'WPA3' in caps` cannot search.
   */
  function CapabilitiesOf(net: Record): (caps: Option<string>)
    ensures "capabilities" !in net ==> caps == Some("")
    ensures caps.Some? <==> Get(net, "capabilities", Null).Str? || "capabilities" !in net
    ensures "capabilities" in net && net["capabilities"].Str? ==> caps == Some(net["capabilities"].s)
  {
    match Get(net, "capabilities", Str(""))
    case Str(s) => Some(s)
    case _ => None
  }

  /**
   * A network the listing can print: its capabilities are text, and the two
   * fields printed with a width (`{ssid:25}`, `{level:4}`) are not None,
   * for which Python's formatting raises TypeError.
   */
  predicate Listable(net: Record): (b: bool)
    ensures b <==>
      && ("capabilities" !in net || net["capabilities"].Str?)
      && ("ssid" !in net || !net["ssid"].Null?)
      && (if "rssi" in net then !net["rssi"].Null? else "level" !in net || !net["level"].Null?)
  {
    CapabilitiesOf(net).Some? && !SsidOf(net).Null? && !SignalOf(net).Null?
  }

  /**
   * The row printed for a network: its position, the SSID and signal
   * fallbacks, the BSSID or 'Unknown', and the label of its capabilities
   * ('' when absent, hence Open).
   */
  function RowOf(position: nat, net: Record): (row: Row)
    requires Listable(net)
    ensures row.position == position
    ensures row.ssid == SsidOf(net) && row.signal == SignalOf(net)
    ensures "bssid" in net ==> row.bssid == net["bssid"]
    ensures "bssid" !in net ==> row.bssid == Str("Unknown")
    ensures "capabilities" in net ==> row.auth == Classify(net["capabilities"].s)
    ensures "capabilities" !in net ==> row.auth == Open
  {
    EmptyCapabilitiesAreOpen();
    Row(position, SsidOf(net), Get(net, "bssid", Str("Unknown")), SignalOf(net), Classify(CapabilitiesOf(net).value))
  }

  /** `display_networks`: prints one row per network in scan order and returns the list it was given. */
  method DisplayNetworks(networks: seq<Record>) returns (d: Display)
    ensures networks == [] ==> d == Shown([], [])
    ensures d.Shown? <==> forall i :: 0 <= i < |networks| ==> Listable(networks[i])
    ensures d.Shown? ==> d.result == networks && |d.rows| == |networks|
    ensures d.Raised? ==> d.index < |networks| && !Listable(networks[d.index]) && |d.rows| == d.index
    ensures forall i :: 0 <= i < |d.rows| ==> Listable(networks[i]) && d.rows[i] == RowOf(i + 1, networks[i])
  {
    if networks == [] {
      return Shown([], []);
    }
    var rows: seq<Row> := [];
    for i := 0 to |networks|
      invariant |rows| == i
      invariant forall j :: 0 <= j < i ==> Listable(networks[j]) && rows[j] == RowOf(j + 1, networks[j])
    {
      if !Listable(networks[i]) {
        return Raised(rows, i);
      }
      rows := rows + [RowOf(i + 1, networks[i])];
    }
    return Shown(rows, networks);
  }

  // ---------------------------------------------------------------------------
  // Lookup by BSSID.
  // ---------------------------------------------------------------------------

  /** `s.lower().strip()`: the form in which a query and a stored BSSID are compared. */
  function Normalise(s: string): (n: string)
    ensures |n| <= |s|
    ensures n == [] || (n[0] !in Whitespace && n[|n| - 1] !in Whitespace)
    ensures forall k :: 0 <= k < |n| ==> !('A' <= n[k] <= 'Z')
  {
    LowerStripNoCapitals(s);
    Strip(Lower(s))
  }

  /**
   * The normalised BSSID of a record, a missing field counting as ''. None
   * when the field is not a string: `.lower()` then raises AttributeError.
   */
  function BssidKey(net: Record): (key: Option<string>)
    ensures "bssid" !in net ==> key == Some("")
    ensures key.Some? <==> Get(net, "bssid", Str("")).Str?
    ensures "bssid" in net && net["bssid"].Str? ==> key == Some(Normalise(net["bssid"].s))
  {
    match Get(net, "bssid", Str(""))
    case Str(b) => Some(Normalise(b))
    case _ => None
  }

  /**
   * Outcome of `get_network_by_bssid`: the first matching record, no match
   * (None), or the AttributeError raised by the record at `index`.
   */
  datatype Lookup = Hit(net: Record) | Miss | BadBssid(index: nat)

  /** The record at `i` is compared without error and does not match `key`. */
  predicate PassedOver(key: string, net: Record)
  {
    BssidKey(net).Some? && BssidKey(net) != Some(key)
  }

  /** The search of `networks` from position `from` on, for the normalised query `key`. */
  function FindFrom(key: string, networks: seq<Record>, from: nat): Lookup
    decreases |networks| - from
  {
    if from >= |networks| then Miss
    else match BssidKey(networks[from])
      case None => BadBssid(from)
      case Some(k) => if k == key then Hit(networks[from]) else FindFrom(key, networks, from + 1)
  }

  function Find(key: string, networks: seq<Record>): Lookup
  {
    FindFrom(key, networks, 0)
  }

  /** `get_network_by_bssid(bssid, networks)`: a linear search with an early return. */
  method GetNetworkByBssid(bssid: string, networks: seq<Record>) returns (r: Lookup)
    ensures r == Find(Normalise(bssid), networks)
  {
    var wanted := Normalise(bssid);
    for i := 0 to |networks|
      invariant FindFrom(wanted, networks, i) == Find(wanted, networks)
    {
      match BssidKey(networks[i])
      case None =>
        return BadBssid(i);
      case Some(k) =>
        if k == wanted {
          return Hit(networks[i]);
        }
    }
    return Miss;
  }

  /**
   * A hit from `from` on is the first record whose key equals the query,
   * every record before it having been compared without error.
   */
  lemma {:induction false} FindFromHit(key: string, networks: seq<Record>, from: nat)
    requires FindFrom(key, networks, from).Hit?
    ensures exists i :: (from <= i < |networks| && BssidKey(networks[i]) == Some(key) &&
      networks[i] == FindFrom(key, networks, from).net &&
      forall j :: from <= j < i ==> PassedOver(key, networks[j]))
    decreases |networks| - from
  {
    if BssidKey(networks[from]) != Some(key) {
      FindFromHit(key, networks, from + 1);
      var i :| from + 1 <= i < |networks| && BssidKey(networks[i]) == Some(key) &&
        networks[i] == FindFrom(key, networks, from).net &&
        forall j :: from + 1 <= j < i ==> PassedOver(key, networks[j]);
      assert forall j :: from <= j < i ==> PassedOver(key, networks[j]);
    }
  }

  /** A miss from `from` on means every record was compared and none matched. */
  lemma {:induction false} FindFromMiss(key: string, networks: seq<Record>, from: nat)
    ensures FindFrom(key, networks, from).Miss? <==>
      forall j :: from <= j < |networks| ==> PassedOver(key, networks[j])
    decreases |networks| - from
  {
    if from < |networks| && PassedOver(key, networks[from]) {
      FindFromMiss(key, networks, from + 1);
    }
  }

  /** An error from `from` on comes from the first record whose BSSID is not text. */
  lemma {:induction false} FindFromBad(key: string, networks: seq<Record>, from: nat, i: nat)
    requires FindFrom(key, networks, from) == BadBssid(i)
    ensures from <= i < |networks| && BssidKey(networks[i]).None?
    ensures forall j :: from <= j < i ==> PassedOver(key, networks[j])
    decreases |networks| - from
  {
    if BssidKey(networks[from]).Some? {
      FindFromBad(key, networks, from + 1, i);
      forall j | from <= j < i ensures PassedOver(key, networks[j]) {
        if j > from { assert from + 1 <= j < i; }
      }
    }
  }

  /** The lookup returns the first record whose normalised BSSID equals the query; no earlier record matches. */
  lemma LookupIsFirstMatch(query: string, networks: seq<Record>)
    requires Find(Normalise(query), networks).Hit?
    ensures exists i :: (0 <= i < |networks| && networks[i] == Find(Normalise(query), networks).net &&
      BssidKey(networks[i]) == Some(Normalise(query)) &&
      forall j :: 0 <= j < i ==> BssidKey(networks[j]).Some? && BssidKey(networks[j]) != Some(Normalise(query)))
  {
    FindFromHit(Normalise(query), networks, 0);
  }

  /**
   * The lookup returns None exactly when every record's BSSID is compared
   * without error and none equals the query.
   */
  lemma LookupMissIffNoMatch(query: string, networks: seq<Record>)
    ensures Find(Normalise(query), networks) == Miss <==>
      forall j :: 0 <= j < |networks| ==> BssidKey(networks[j]).Some? && BssidKey(networks[j]) != Some(Normalise(query))
  {
    FindFromMiss(Normalise(query), networks, 0);
  }

  /**
   * The lookup raises only at a record whose BSSID is not text, and only when
   * no earlier record matched; a record without a BSSID never raises.
   */
  lemma LookupRaisesOnlyOnNonText(query: string, networks: seq<Record>)
    requires Find(Normalise(query), networks).BadBssid?
    ensures var i := Find(Normalise(query), networks).index;
      i < |networks| && "bssid" in networks[i] && !networks[i]["bssid"].Str? &&
      forall j :: 0 <= j < i ==> BssidKey(networks[j]).Some? && BssidKey(networks[j]) != Some(Normalise(query))
  {
    FindFromBad(Normalise(query), networks, 0, Find(Normalise(query), networks).index);
  }

  lemma NormaliseEmpty()
    ensures Normalise("") == ""
  {
    assert Lower("") == "";
  }

  /** A record without a BSSID is looked up as '': it matches exactly the queries that normalise to ''. */
  lemma MissingBssidMatchesOnlyBlank(net: Record, query: string)
    requires "bssid" !in net
    ensures BssidKey(net) == Some(Normalise(query)) <==> Normalise(query) == ""
  {
    NormaliseEmpty();
  }

  /** Normalising twice is normalising once. */
  lemma NormaliseIdempotent(s: string)
    ensures Normalise(Normalise(s)) == Normalise(s)
  {
    LowerStripCommute(Lower(s));
    LowerIdempotent(s);
    StripCharsIdempotent(Lower(s), Whitespace);
  }

  /** The query is compared without regard to letter case. */
  lemma LookupIgnoresCase(query: string, networks: seq<Record>)
    ensures Find(Normalise(Upper(query)), networks) == Find(Normalise(query), networks)
    ensures Find(Normalise(Lower(query)), networks) == Find(Normalise(query), networks)
  {
    LowerOfUpper(query);
    LowerIdempotent(query);
  }

  /** Whitespace around the query does not change the lookup. */
  lemma LookupIgnoresPadding(before: string, query: string, after: string, networks: seq<Record>)
    requires AllIn(before, Whitespace) && AllIn(after, Whitespace)
    ensures Find(Normalise(before + query + after), networks) == Find(Normalise(query), networks)
  {
    LowerAppend(before + query, after);
    LowerAppend(before, query);
    LowerOfSpace(before);
    LowerOfSpace(after);
    StripCharsIgnoresPadding(before, Lower(query), after, Whitespace);
  }

  /** Stripping the typed BSSID before the lookup, as the menu does, changes nothing. */
  lemma LookupAfterStrip(query: string, networks: seq<Record>)
    ensures Find(Normalise(Strip(query)), networks) == Find(Normalise(query), networks)
  {
    LowerStripCommute(query);
    StripCharsIdempotent(Lower(query), Whitespace);
  }

  /** A string that neither starts nor ends with whitespace normalises to its lower-case form. */
  lemma NormaliseUnpadded(s: string)
    requires s != [] && s[0] !in Whitespace && s[|s| - 1] !in Whitespace
    ensures Normalise(s) == Lower(s)
  {
    var l := Lower(s);
    LowerCharKeepsSpace(s[0]);
    LowerCharKeepsSpace(s[|s| - 1]);
    assert l[..0] == [] && l[|l|..] == [] && l[0..|l|] == l;
    StripCharsComplete(l, l, Whitespace, 0);
  }

  /**
   * Separators are compared as typed: a hyphenated BSSID does not find the
   * record stored with colons, whatever the letter case.
   */
  lemma HyphenatedQueryMisses(query: string, stored: string)
    requires query == "AA-BB-CC-DD-EE-FF" && stored == "aa:bb:cc:dd:ee:ff"
    ensures Find(Normalise(query), [map["bssid" := Str(stored)]]) == Miss
  {
    assert query[0] == 'A' && query[16] == 'F' && query[2] == '-';
    assert stored[0] == 'a' && stored[16] == 'f' && stored[2] == ':';
    NormaliseUnpadded(query);
    NormaliseUnpadded(stored);
    assert Normalise(query)[2] == '-' && Normalise(stored)[2] == ':';
    var net: Record := map["bssid" := Str(stored)];
    assert BssidKey(net) == Some(Normalise(stored));
    assert FindFrom(Normalise(query), [net], 1) == Miss;
  }

  // ---------------------------------------------------------------------------
  // The details view.
  // ---------------------------------------------------------------------------

  /** The five fields the details view prints for a network. */
  datatype Details = Details(ssid: Value, bssid: Value, signal: Value, frequency: Value, capabilities: Value)

  /**
   * The fields the details view prints: the SSID, signal and frequency
   * fallbacks, the BSSID or None, the capabilities or 'N/A'.
   */
  function DetailsOf(net: Record): (d: Details)
    ensures d.ssid == SsidOf(net) && d.signal == SignalOf(net) && d.frequency == FrequencyOf(net)
    ensures "bssid" in net ==> d.bssid == net["bssid"]
    ensures "bssid" !in net ==> d.bssid == Null
    ensures "capabilities" in net ==> d.capabilities == net["capabilities"]
    ensures "capabilities" !in net ==> d.capabilities == Str("N/A")
  {
    Details(SsidOf(net), Get(net, "bssid", Null), SignalOf(net), FrequencyOf(net), Get(net, "capabilities", Str("N/A")))
  }

  /**
   * The details view and the listing read SSID and signal by the same
   * fallbacks; they differ on a missing BSSID ('Unknown' against None) and on
   * missing capabilities ('N/A' shown, while the listing classifies '' as Open).
   */
  lemma DetailsAgreeWithListing(position: nat, net: Record)
    requires Listable(net)
    ensures DetailsOf(net).ssid == RowOf(position, net).ssid
    ensures DetailsOf(net).signal == RowOf(position, net).signal
    ensures "bssid" !in net ==> DetailsOf(net).bssid == Null && RowOf(position, net).bssid == Str("Unknown")
    ensures "capabilities" !in net ==>
      DetailsOf(net).capabilities == Str("N/A") && RowOf(position, net).auth == Open
  {
    if "capabilities" !in net {
      EmptyCapabilitiesAreOpen();
    }
  }

  /** What option 2 of the menu shows for a typed BSSID. */
  datatype DetailsOutcome = DetailsShown(details: Details) | NotFound | LookupRaised(index: nat)

  /**
   * Menu option 2: strip the typed BSSID, look it up, and print the details of
   * a non-empty record (an empty dictionary is falsy and reads as not found).
   */
  method ShowNetworkDetails(typed: string, networks: seq<Record>) returns (o: DetailsOutcome)
    ensures o.DetailsShown? <==> Find(Normalise(typed), networks).Hit? && NonEmpty(Find(Normalise(typed), networks).net)
    ensures o.DetailsShown? ==> o.details == DetailsOf(Find(Normalise(typed), networks).net)
    ensures o.LookupRaised? <==> Find(Normalise(typed), networks).BadBssid?
    ensures o.LookupRaised? ==> o.index == Find(Normalise(typed), networks).index
  {
    var found := GetNetworkByBssid(Strip(typed), networks);
    LookupAfterStrip(typed, networks);
    match found
    case Hit(net) =>
      if NonEmpty(net) {
        o := DetailsShown(DetailsOf(net));
      } else {
        o := NotFound;
      }
    case Miss =>
      o := NotFound;
    case BadBssid(i) =>
      o := LookupRaised(i);
  }
}
