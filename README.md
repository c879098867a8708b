# Termux Wi-Fi scanner: the decision logic of `wifi_cracker.py`

`wifi_cracker.py` is a menu-driven Termux script. It lists the Wi-Fi networks
that `termux-wifi-scaninfo` reports, shows the details of one network chosen by
BSSID, and on a rooted device tries the passwords of a wordlist against a chosen
network, one after another. This project models the decisions that script makes
and proves what they guarantee. The Dafny modules follow the script's parts:

- `Text` holds the parts of Python's string semantics the script relies on: the
  substring test `p in s`, `str.lower()`, `str.strip()` and `str.strip(chars)`.
- `Records` holds scan results as parsed JSON dictionaries, read with
  `dict.get`, plus Python truthiness and `==`.
- `Security` holds the security label derived from the `capabilities` string.
- `Catalog` holds the numbered listing (`display_networks`), the BSSID lookup
  (`get_network_by_bssid`) and the details view (menu option 2).
- `Wordlist` holds the cleanup of the typed wordlist path and the filtering of
  its lines.
- `Trial` holds menu option 3: the root check, the choice of the target, the
  wordlist checks, the password loop with its `for … else`, and the success test
  at the end of `try_connect_root`.

The model raises no exception silently. Where Python would raise, the model
returns a result variant:

- a non-string `bssid` makes `.lower()` raise AttributeError; the model returns
  `BadBssid(i)`;
- a non-string `capabilities` makes `'WPA3' in caps` raise TypeError; the model
  returns `Raised`;
- a null `ssid` or signal formatted with a width makes Python raise TypeError;
  the model returns `Raised` as well.

A connection attempt is an oracle `observe(i, password)`. It gives what the
status check saw after the `i`-th attempt:

- the attempt raised;
- no info was available;
- the info was not an object;
- the info was an object with some fields.

The file system is a map from paths to `Readable(lines)` or `Unreadable`.

Some things a reader might expect of such a tool are not in the code, so the
model does not have them either:

- BSSIDs are compared after `lower().strip()` only, so hyphens and colons stay
  different. `Catalog.HyphenatedQueryMisses` proves a concrete miss.
- No minimum password length is applied.
- A failing `su` does not stop the run. `try_connect_root` swallows every
  exception and returns False, so the loop goes on to the next password.
- Option 3 checks the connection once, after a fixed delay. It does not poll.
- No PSK is derived offline (no PBKDF2).

## Model

| member | source | states |
|---|---|---|
| Text.Lower | wifi_cracker.py:110 | `str.lower()`: same length, no capital letter left, and each position upper-cases to what the input's does |
| Text.StripChars | wifi_cracker.py:266 | `str.strip(chars)`: no longer than its input, and neither starts nor ends with a stripped character |
| Text.Strip | wifi_cracker.py:274 | `str.strip()`: no longer than its input, and neither starts nor ends with whitespace |
| Text.Contains | wifi_cracker.py:89-96 | `p in s` holds exactly when `p` occurs at some position of `s` |
| Text.LowerStripCommute | wifi_cracker.py:110 | lower-casing then stripping equals stripping then lower-casing |
| Text.StripCharsSlice | wifi_cracker.py:274 | a strip is a slice of its input, does not start or end with a stripped character, and only stripped characters were removed around it |
| Text.StripCharsComplete | wifi_cracker.py:274 | the strip is the only such slice, so it is fully determined by that description |
| Text.StripCharsIdempotent | wifi_cracker.py:274 | stripping twice with the same characters is stripping once |
| Records.Get | wifi_cracker.py:82-86 | `dict.get(key, default)`: the stored value when the key is present, even null, else the default |
| Records.Truthy | wifi_cracker.py:262 | a value is falsy exactly when it is '', 0, False or None |
| Records.NonEmpty | wifi_cracker.py:257 | a dictionary is truthy exactly when it holds some key |
| Records.PyEquals | wifi_cracker.py:162 | Python `==` on JSON scalars: equal values compare equal; a string or None equals only itself; numbers and booleans compare as numbers, so `True == 1` and `2 != True` |
| Records.PyEqualsSymmetric | wifi_cracker.py:162 | the comparison does not depend on which side the target SSID is on |
| Records.SsidOf | wifi_cracker.py:82 | the `ssid` field when present (even if null), else 'Hidden' |
| Records.SignalOf | wifi_cracker.py:84 | `rssi` when present, else `level` when present, else 'N/A' |
| Records.FrequencyOf | wifi_cracker.py:243 | `frequency_mhz` when present, else `frequency` when present, else 'N/A' |
| Security.Classify | wifi_cracker.py:88-98 | the label is Open or a token that is present, and no present token outranks it (WPA3 > WPA2 > WPA > WEP) |
| Security.ClassifyUnique | wifi_cracker.py:88-98 | that priority description admits exactly one label, Classify's |
| Security.WpaTokensNest | wifi_cracker.py:89-94 | every string holding 'WPA3' or 'WPA2' also holds 'WPA', so only the test order separates the labels |
| Security.ClassifyCases | wifi_cracker.py:89-98 | each label holds iff its token is present and no higher token is; Open iff none of the four tokens is present |
| Security.EmptyCapabilitiesAreOpen | wifi_cracker.py:86-98 | a record without capabilities (default '') is Open |
| Security.MixedModeIsWpa2 | wifi_cracker.py:91-92 | '[WPA2-PSK][WPA-PSK]' is WPA2 although it also holds 'WPA' |
| Catalog.CapabilitiesOf | wifi_cracker.py:86 | a missing `capabilities` reads as ''; a string value is returned unchanged; the value can be searched iff it is a string or absent |
| Catalog.Listable | wifi_cracker.py:86-103 | a record can be printed iff its capabilities are absent or text, its `ssid` is absent or not null, and the signal field used (`rssi`, else `level`) is not null |
| Catalog.RowOf | wifi_cracker.py:81-103 | the row holds the 1-based position, the SSID and signal fallbacks, the BSSID or 'Unknown', and the label of the capabilities (Open when absent) |
| Catalog.DisplayNetworks | wifi_cracker.py:72-106 | an empty list gives [] and no rows; every record is listed iff every record can be printed, and then the input list is returned unchanged; otherwise it raises at the first record that cannot be printed; row i holds position i+1, the field fallbacks and the label of record i |
| Catalog.Normalise | wifi_cracker.py:110 | the normalised form is no longer than the input, holds no capital letter, and neither starts nor ends with whitespace |
| Catalog.BssidKey | wifi_cracker.py:112 | a missing `bssid` reads as ''; a string becomes its normalised form; the key exists iff the stored value is a string or absent |
| Catalog.GetNetworkByBssid | wifi_cracker.py:108-115 | the loop with early return computes the first-match search `Find` over the normalised query |
| Catalog.LookupIsFirstMatch | wifi_cracker.py:110-114 | a hit is a record whose normalised BSSID equals the normalised query, and every earlier record was compared and differs |
| Catalog.LookupMissIffNoMatch | wifi_cracker.py:111-115 | None is returned iff every record is compared and none matches |
| Catalog.LookupRaisesOnlyOnNonText | wifi_cracker.py:112 | the lookup raises only at a record whose `bssid` is present and not a string, after no earlier match |
| Catalog.MissingBssidMatchesOnlyBlank | wifi_cracker.py:112-113 | a record without `bssid` matches exactly the queries that normalise to '' |
| Catalog.NormaliseIdempotent | wifi_cracker.py:110 | normalising twice is normalising once |
| Catalog.LookupIgnoresCase | wifi_cracker.py:110 | upper- or lower-casing the query does not change the lookup |
| Catalog.LookupIgnoresPadding | wifi_cracker.py:110 | whitespace around the query does not change the lookup |
| Catalog.LookupAfterStrip | wifi_cracker.py:236-237 | stripping the typed BSSID before the lookup does not change it |
| Catalog.HyphenatedQueryMisses | wifi_cracker.py:110-113 | 'AA-BB-CC-DD-EE-FF' does not find a record stored as 'aa:bb:cc:dd:ee:ff' |
| Catalog.DetailsAgreeWithListing | wifi_cracker.py:240-244 | details and listing agree on SSID and signal; a missing BSSID shows None in details and 'Unknown' in the listing; missing capabilities show 'N/A' in details and Open in the listing |
| Catalog.DetailsOf | wifi_cracker.py:240-244 | the SSID, signal and frequency fallbacks, the BSSID or None, and the capabilities or 'N/A' |
| Catalog.ShowNetworkDetails | wifi_cracker.py:235-246 | details are shown iff the lookup hits a non-empty record, and they are that record's fields; the option raises iff the lookup does |
| Wordlist.CleanPath | wifi_cracker.py:266 | the cleaned path is a whitespace strip of the typed text followed by a quote strip; it is a slice of the typed text with only whitespace and quotes around it, and neither starts nor ends with a quote |
| Wordlist.CleanPathDetermined | wifi_cracker.py:266 | that two-step description admits exactly one path, the cleaned one |
| Wordlist.CleanPathUnquotes | wifi_cracker.py:266 | a quoted path with whitespace around it comes out bare |
| Wordlist.CleanPathKeepsInnerSpace | wifi_cracker.py:266 | whitespace inside the quotes survives, so cleaning is not idempotent |
| Wordlist.LoadPasswords | wifi_cracker.py:274 | there are no more candidates than lines, and none is empty |
| Wordlist.LoadPasswordsSelectsInOrder | wifi_cracker.py:274 | the candidates are the stripped non-blank lines in file order: at strictly increasing line positions, no more than the lines, each line kept iff its strip is non-empty |
| Wordlist.PasswordsAreStripped | wifi_cracker.py:274 | every candidate is non-empty and already stripped |
| Trial.ConnectSucceeded | wifi_cracker.py:161-166 | success needs a non-empty object; for a truthy target it holds iff the `ssid` field is present and equals the target |
| Trial.TryPasswords | wifi_cracker.py:282-291 | passwords are tried in order, as a prefix of the list; a password is found iff some attempt succeeds; the reported one is the first that succeeds and the last tried; 'not found' comes after trying every password |
| Trial.ChooseTarget | wifi_cracker.py:254-264 | a chosen SSID is truthy and is the `ssid` of the record the lookup found; a refusal is 'not found', 'hidden' or the lookup's error |
| Trial.ChooseTargetIsFirstMatch | wifi_cracker.py:254-264 | a chosen SSID belongs to the first matching record; the target is chosen iff the lookup finds a non-empty record with a truthy SSID; 'hidden' iff it finds a non-empty record with a falsy SSID; 'not found' iff no record matched or the match was an empty record; the lookup's error at record i is passed on as the refusal |
| Trial.PickTarget | wifi_cracker.py:254-264 | strips the typed BSSID, looks it up and refuses a missing or hidden network, as `ChooseTarget` states |
| Trial.RunWordlist | wifi_cracker.py:266-291 | a missing or unreadable wordlist stops the option; otherwise the loaded passwords are tried as TryPasswords states |
| Trial.TestWordlist | wifi_cracker.py:248-291 | without root nothing is tried; with root the option ends as the chosen target, the cleaned path and the file determine |

## Left out

- Every `subprocess` call is left out: `check_termux_api`, `scan_networks`, `get_wifi_connection_info`, `check_root`, and the `su`/`wpa_cli` command. Scan results, the root flag and the status check are inputs or the oracle `observe` instead.
- The shell strings built in `try_connect_root` are left out, including the unused `config` and `cmd`. They are command text whose effect is outside the program.
- `try_connect_wifi` is left out. It always returns False and the menu never calls it.
- `json.loads`, the timeout and decode handlers and `time.sleep` are left out. They are library and clock behaviour; the status check is already-parsed data.
- Output is left out: `print`, colours, `print_banner`, and the `input()`-driven menu loop. Option 2 and option 3 are modelled as single passes over already-typed text.
- `os.path.exists` and `open` are modelled by the map `files`. Decoding with `errors='ignore'` and line splitting are not modelled: a file is its lines.
- `str.lower()` is modelled on ASCII letters only. Whitespace for `str.strip()` is Python's whitespace below U+0100; Unicode beyond that is not modelled.
- JSON arrays, nested objects and floats as field values are not modelled. Nor are scan results that are not dictionaries.
- Trial.ConnectSucceeded: for a falsy target that is not a string (0, False, None) its contract states only the direction "success implies a non-empty object". A hidden network never reaches the loop.
- Trial.TryPasswords: it does not model the state the device keeps between attempts. The oracle receives the attempt number and the password instead.
