/**
 * Scan results as the scanner sees them once `termux-wifi-scaninfo` output
 * has been parsed: each network is a dictionary from field names to JSON
 * scalars, read with Python's `dict.get(key, default)`.
 */
module Records {

  datatype Option<T> = None | Some(value: T)

  /** A JSON scalar as Python holds it after `json.loads`. */
  datatype Value = Str(s: string) | Int(i: int) | Bool(b: bool) | Null

  /** One parsed scan result (or connection-info object). */
  type Record = map<string, Value>

  /** Python's `d.get(key, default)`: the default is used only when the key is absent. */
  function Get(d: Record, key: string, default: Value): (v: Value)
    ensures key in d ==> v == d[key]
    ensures key !in d ==> v == default
  {
    if key in d then d[key] else default
  }

  /** Python's `bool(v)`. */
  predicate Truthy(v: Value): (b: bool)
    ensures !b <==> v in {Str(""), Int(0), Bool(false), Null}
  {
    match v
    case Str(s) => s != ""
    case Int(i) => i != 0
    case Bool(b) => b
    case Null => false
  }

  /** Python's `bool(d)` for a dictionary: only the empty dictionary is false. */
  predicate NonEmpty(d: Record): (b: bool)
    ensures b <==> exists key :: key in d
  {
    |d| > 0
  }

  /** The number a boolean or an integer stands for in a Python comparison. */
  function NumberOf(v: Value): int
    requires v.Int? || v.Bool?
  {
    if v.Int? then v.i else if v.b then 1 else 0
  }

  /**
   * Python's `a == b` on JSON scalars: strings compare by content, `None` only
   * equals `None`, and `bool` is a subclass of `int`, so `True == 1`.
   */
  function PyEquals(a: Value, b: Value): (eq: bool)
    ensures a == b ==> eq
    ensures eq && (a.Str? || b.Str?) ==> a == b
    ensures eq && (a.Null? || b.Null?) ==> a == b
    ensures (a.Int? || a.Bool?) && (b.Int? || b.Bool?) ==> (eq <==> NumberOf(a) == NumberOf(b))
  {
    match (a, b)
    case (Str(x), Str(y)) => x == y
    case (Null, Null) => true
    case (Str(_), _) => false
    case (_, Str(_)) => false
    case (Null, _) => false
    case (_, Null) => false
    case _ => NumberOf(a) == NumberOf(b)
  }

  lemma PyEqualsSymmetric(a: Value, b: Value)
    ensures PyEquals(a, b) == PyEquals(b, a)
  {
  }

  // ---------------------------------------------------------------------------
  // Field fallbacks shared by the network listing and the details view.
  // ---------------------------------------------------------------------------

  /** `net.get('ssid', 'Hidden')`. */
  function SsidOf(net: Record): (v: Value)
    ensures "ssid" in net ==> v == net["ssid"]
    ensures "ssid" !in net ==> v == Str("Hidden")
  {
    Get(net, "ssid", Str("Hidden"))
  }

  /**
   * `net.get('rssi', net.get('level', 'N/A'))`: the signal strength is the
   * `rssi` field when present (even when it is null), else `level`, else 'N/A'.
   */
  function SignalOf(net: Record): (v: Value)
    ensures "rssi" in net ==> v == net["rssi"]
    ensures "rssi" !in net && "level" in net ==> v == net["level"]
    ensures "rssi" !in net && "level" !in net ==> v == Str("N/A")
  {
    Get(net, "rssi", Get(net, "level", Str("N/A")))
  }

  /** `net.get('frequency_mhz', net.get('frequency', 'N/A'))`. */
  function FrequencyOf(net: Record): (v: Value)
    ensures "frequency_mhz" in net ==> v == net["frequency_mhz"]
    ensures "frequency_mhz" !in net && "frequency" in net ==> v == net["frequency"]
    ensures "frequency_mhz" !in net && "frequency" !in net ==> v == Str("N/A")
  {
    Get(net, "frequency_mhz", Get(net, "frequency", Str("N/A")))
  }
}
