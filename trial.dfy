/**
 * Option 3 of the menu: test the passwords of a wordlist against a network
 * chosen by BSSID, on a rooted device. Each attempt reconfigures the Wi-Fi
 * through `su`/`wpa_cli`, waits, and asks `termux-wifi-connectioninfo` which
 * network the device is now on; the attempt succeeded when that network is
 * the target.
 */
module Trial {
  import opened Text
  import opened Records
  import opened Catalog
  import opened Wordlist

  /**
   * What the status check after one attempt saw: the attempt raised (the
   * `su` call failed or timed out), no connection info was available, the
   * info was JSON but not an object, or it was an object.
   */
  datatype Probe = Raised | NoInfo | NotObject | Object(fields: Record)

  /**
   * `info and info.get('ssid') == ssid`, any exception counting as failure:
   * only a non-empty object whose `ssid` equals the target succeeds.
   */
  function ConnectSucceeded(probe: Probe, ssid: Value): (ok: bool)
    ensures ok ==> probe.Object? && NonEmpty(probe.fields)
    ensures Truthy(ssid) ==>
      (ok <==> probe.Object? && "ssid" in probe.fields && PyEquals(probe.fields["ssid"], ssid))
    ensures ssid.Str? ==>
      (ok <==> probe.Object? && "ssid" in probe.fields && probe.fields["ssid"] == ssid)
  {
    match probe
    case Object(fields) => NonEmpty(fields) && PyEquals(Get(fields, "ssid", Null), ssid)
    case _ => false
  }

  /** The result the loop reports. */
  datatype Verdict = Found(password: string) | NotInWordlist

  /** The attempt numbered `i` (0-based), with the `i`-th password, reached the target. */
  predicate SucceedsAt(ssid: Value, passwords: seq<string>, observe: (nat, string) -> Probe, i: nat)
    requires i < |passwords|
  {
    ConnectSucceeded(observe(i, passwords[i]), ssid)
  }

  /**
   * The `for ... else` loop over the passwords. `observe(i, p)` stands for
   * `try_connect_root(ssid, p)` made as the `i`-th attempt: what the status
   * check saw afterwards. `tried` lists the passwords attempted, in order.
   */
  method TryPasswords(ssid: Value, passwords: seq<string>, observe: (nat, string) -> Probe)
    returns (verdict: Verdict, tried: seq<string>)
    ensures |tried| <= |passwords| && tried == passwords[..|tried|]
    ensures verdict.Found? <==> exists i :: 0 <= i < |passwords| && SucceedsAt(ssid, passwords, observe, i)
    ensures verdict.Found? ==>
      && |tried| > 0
      && verdict.password == tried[|tried| - 1]
      && SucceedsAt(ssid, passwords, observe, |tried| - 1)
      && forall i :: 0 <= i < |tried| - 1 ==> !SucceedsAt(ssid, passwords, observe, i)
    ensures verdict.NotInWordlist? ==> tried == passwords
  {
    tried := [];
    for i := 0 to |passwords|
      invariant tried == passwords[..i]
      invariant forall j :: 0 <= j < i ==> !SucceedsAt(ssid, passwords, observe, j)
    {
      tried := tried + [passwords[i]];
      assert tried == passwords[..i + 1];
      if ConnectSucceeded(observe(i, passwords[i]), ssid) {
        assert SucceedsAt(ssid, passwords, observe, i);
        return Found(passwords[i]), tried;
      }
    }
    return NotInWordlist, tried;
  }

  /** The wordlist file as the host presents it: its lines, or an error on opening or reading it. */
  datatype WordlistFile = Readable(lines: seq<string>) | Unreadable

  /** How one run of option 3 ends. */
  datatype Attack =
    | RootRequired
    | NetworkNotFound
    | BssidNotText(index: nat)
    | HiddenNetwork
    | WordlistMissing(path: string)
    | WordlistUnreadable
    | Cracked(password: string)
    | Exhausted

  /** The target chosen from the typed BSSID: its SSID, or the reason option 3 stops there. */
  datatype Choice = Chosen(ssid: Value) | Refused(reason: Attack)

  /**
   * Looking up the typed BSSID, then refusing a record that reads as not
   * found (an empty dictionary is falsy) or whose SSID is falsy (a hidden
   * network).
   */
  function ChooseTarget(networks: seq<Record>, typedBssid: string): (choice: Choice)
    ensures choice.Chosen? ==> Truthy(choice.ssid)
    ensures choice.Chosen? ==>
      && Find(Normalise(typedBssid), networks).Hit?
      && choice.ssid == Get(Find(Normalise(typedBssid), networks).net, "ssid", Null)
    ensures choice.Refused? ==> choice.reason in {NetworkNotFound, HiddenNetwork} || choice.reason.BssidNotText?
  {
    match Find(Normalise(typedBssid), networks)
    case BadBssid(i) => Refused(BssidNotText(i))
    case Miss => Refused(NetworkNotFound)
    case Hit(net) =>
      if !NonEmpty(net) then Refused(NetworkNotFound)
      else if !Truthy(Get(net, "ssid", Null)) then Refused(HiddenNetwork)
      else Chosen(Get(net, "ssid", Null))
  }

  /**
   * A chosen target is the SSID of the first record whose BSSID matches, and
   * it is never empty, null, zero or false; the two "not found" reasons mean
   * that no record matched or that the match was an empty record.
   */
  lemma ChooseTargetIsFirstMatch(networks: seq<Record>, typedBssid: string)
    ensures ChooseTarget(networks, typedBssid).Chosen? ==>
      Truthy(ChooseTarget(networks, typedBssid).ssid) &&
      exists i :: (0 <= i < |networks| && BssidKey(networks[i]) == Some(Normalise(typedBssid)) &&
        Get(networks[i], "ssid", Null) == ChooseTarget(networks, typedBssid).ssid &&
        forall j :: 0 <= j < i ==> PassedOver(Normalise(typedBssid), networks[j]))
    ensures ChooseTarget(networks, typedBssid) == Refused(NetworkNotFound) <==>
      (forall j :: 0 <= j < |networks| ==> PassedOver(Normalise(typedBssid), networks[j])) ||
      Find(Normalise(typedBssid), networks) == Hit(map[])
    ensures var found := Find(Normalise(typedBssid), networks);
      && (ChooseTarget(networks, typedBssid).Chosen? <==>
            found.Hit? && NonEmpty(found.net) && Truthy(Get(found.net, "ssid", Null)))
      && (ChooseTarget(networks, typedBssid) == Refused(HiddenNetwork) <==>
            found.Hit? && NonEmpty(found.net) && !Truthy(Get(found.net, "ssid", Null)))
      && (ChooseTarget(networks, typedBssid).Refused? && ChooseTarget(networks, typedBssid).reason.BssidNotText? <==>
            found.BadBssid?)
      && (found.BadBssid? ==> ChooseTarget(networks, typedBssid) == Refused(BssidNotText(found.index)))
  {
    var key := Normalise(typedBssid);
    var found := Find(key, networks);
    FindFromMiss(key, networks, 0);
    if found.Hit? {
      FindFromHit(key, networks, 0);
      if !NonEmpty(found.net) {
        assert found.net == map[];
      }
    }
  }

  /**
   * How option 3 ends once root is confirmed, given the target choice and
   * the cleaned path: a refusal stops it, a missing or unreadable file stops
   * it, and otherwise the passwords are tried in order until the first
   * success, the last password tried being the one reported.
   */
  predicate RunsWordlist(choice: Choice, path: string, files: map<string, WordlistFile>,
                         observe: (nat, string) -> Probe, a: Attack, tried: seq<string>)
  {
    if choice.Refused? then a == choice.reason && tried == []
    else if path !in files then a == WordlistMissing(path) && tried == []
    else if files[path].Unreadable? then a == WordlistUnreadable && tried == []
    else
      var passwords := LoadPasswords(files[path].lines);
      && (a.Cracked? || a.Exhausted?)
      && |tried| <= |passwords| && tried == passwords[..|tried|]
      && (a.Cracked? ==>
            && |tried| > 0 && a.password == tried[|tried| - 1]
            && SucceedsAt(choice.ssid, passwords, observe, |tried| - 1)
            && forall i :: 0 <= i < |tried| - 1 ==> !SucceedsAt(choice.ssid, passwords, observe, i))
      && (a.Exhausted? ==>
            && tried == passwords
            && forall i :: 0 <= i < |passwords| ==> !SucceedsAt(choice.ssid, passwords, observe, i))
  }

  /** Lines 254-264: read the target BSSID, look it up, and refuse hidden or missing networks. */
  method PickTarget(networks: seq<Record>, typedBssid: string) returns (choice: Choice)
    ensures choice == ChooseTarget(networks, typedBssid)
  {
    var found := GetNetworkByBssid(Strip(typedBssid), networks);
    LookupAfterStrip(typedBssid, networks);
    match found {
      case BadBssid(i) =>
        choice := Refused(BssidNotText(i));
      case Miss =>
        choice := Refused(NetworkNotFound);
      case Hit(net) =>
        if !NonEmpty(net) {
          choice := Refused(NetworkNotFound);
        } else if !Truthy(Get(net, "ssid", Null)) {
          choice := Refused(HiddenNetwork);
        } else {
          choice := Chosen(Get(net, "ssid", Null));
        }
    }
  }

  /**
   * Option 3 from the root check to the end of the password loop. `files`
   * stands for the file system (`os.path.exists` and `open`), `observe` for
   * the connection attempts.
   */
  method TestWordlist(rooted: bool, networks: seq<Record>, typedBssid: string, typedPath: string,
                      files: map<string, WordlistFile>, observe: (nat, string) -> Probe)
    returns (a: Attack, tried: seq<string>)
    ensures !rooted ==> a == RootRequired && tried == []
    ensures rooted ==> RunsWordlist(ChooseTarget(networks, typedBssid), CleanPath(typedPath), files, observe, a, tried)
  {
    tried := [];
    if !rooted {
      return RootRequired, tried;
    }
    var choice := PickTarget(networks, typedBssid);
    a, tried := RunWordlist(choice, CleanPath(typedPath), files, observe);
  }

  /** Lines 258-291 once the target is chosen and the path cleaned: open the wordlist and try it. */
  method RunWordlist(choice: Choice, path: string, files: map<string, WordlistFile>,
                     observe: (nat, string) -> Probe)
    returns (a: Attack, tried: seq<string>)
    ensures RunsWordlist(choice, path, files, observe, a, tried)
  {
    tried := [];
    if choice.Refused? {
      return choice.reason, tried;
    }
    if path !in files {
      return WordlistMissing(path), tried;
    }
    if files[path].Unreadable? {
      return WordlistUnreadable, tried;
    }
    var passwords := LoadPasswords(files[path].lines);
    var verdict;
    verdict, tried := TryPasswords(choice.ssid, passwords, observe);
    if verdict.Found? {
      return Cracked(verdict.password), tried;
    }
    return Exhausted, tried;
  }
}
