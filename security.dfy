/**
 * The security label shown for each network in the listing: the
 * capabilities string reported by the scan is searched for the tokens
 * "WPA3", "WPA2", "WPA" and "WEP", in that order, and the first one found
 * names the network's security; a network with none of them is "Open".
 */
module Security {
  import opened Text

  datatype Auth = WPA3 | WPA2 | WPA | WEP | Open

  /** The capability token whose presence selects each label ("Open" has none). */
  function Token(a: Auth): string
  {
    match a
    case WPA3 => "WPA3"
    case WPA2 => "WPA2"
    case WPA => "WPA"
    case WEP => "WEP"
    case Open => ""
  }

  /** The priority of each label: a higher rank wins when several tokens are present. */
  function Rank(a: Auth): nat
  {
    match a
    case WPA3 => 4
    case WPA2 => 3
    case WPA => 2
    case WEP => 1
    case Open => 0
  }

  /** The capabilities string mentions the token of `a`. */
  predicate Offers(caps: string, a: Auth)
  {
    a != Open && Contains(caps, Token(a))
  }

  /**
   * The if/elif chain over `caps`. Its result is the label of the
   * highest-priority token present in `caps`, or Open when none is.
   */
  function Classify(caps: string): (r: Auth)
    ensures r == Open || Offers(caps, r)
    ensures forall a :: Offers(caps, a) ==> Rank(a) <= Rank(r)
  {
    if Contains(caps, "WPA3") then WPA3
    else if Contains(caps, "WPA2") then WPA2
    else if Contains(caps, "WPA") then WPA
    else if Contains(caps, "WEP") then WEP
    else Open
  }

  /**
   * The two clauses of Classify's contract pin the label down: any label
   * that is offered (or Open) and outranks every offered label is Classify's.
   */
  lemma ClassifyUnique(caps: string, a: Auth)
    requires a == Open || Offers(caps, a)
    requires forall b :: Offers(caps, b) ==> Rank(b) <= Rank(a)
    ensures a == Classify(caps)
  {
    var r := Classify(caps);
    assert Rank(r) <= Rank(a);
    assert r != Open ==> Rank(a) <= Rank(r);
  }

  /**
   * "WPA" occurs inside "WPA2" and "WPA3", so every WPA2 or WPA3 network also
   * passes the plain "WPA" test: only the order of the tests keeps them apart.
   */
  lemma WpaTokensNest(caps: string)
    ensures Contains(caps, "WPA3") ==> Contains(caps, "WPA")
    ensures Contains(caps, "WPA2") ==> Contains(caps, "WPA")
  {
    assert OccursAt("WPA3", "WPA", 0);
    assert OccursAt("WPA2", "WPA", 0);
    if Contains(caps, "WPA3") { ContainsTransitive(caps, "WPA3", "WPA"); }
    if Contains(caps, "WPA2") { ContainsTransitive(caps, "WPA2", "WPA"); }
  }

  /** Each label, in terms of which tokens the capabilities string holds. */
  lemma ClassifyCases(caps: string)
    ensures Classify(caps) == WPA3 <==> Contains(caps, "WPA3")
    ensures Classify(caps) == WPA2 <==> Contains(caps, "WPA2") && !Contains(caps, "WPA3")
    ensures Classify(caps) == WPA <==> Contains(caps, "WPA") && !Contains(caps, "WPA2") && !Contains(caps, "WPA3")
    ensures Classify(caps) == WEP <==> Contains(caps, "WEP") && !Contains(caps, "WPA")
    ensures Classify(caps) == Open <==>
      !Contains(caps, "WPA3") && !Contains(caps, "WPA2") && !Contains(caps, "WPA") && !Contains(caps, "WEP")
  {
    WpaTokensNest(caps);
  }

  /** A network with an empty capabilities string (the default) is Open. */
  lemma EmptyCapabilitiesAreOpen()
    ensures Classify("") == Open
  {
    assert !Contains("", "WEP") && !Contains("", "WPA");
  }

  /** A typical WPA/WPA2 mixed-mode access point is labelled WPA2, not WPA. */
  lemma MixedModeIsWpa2(caps: string)
    requires caps == "[WPA2-PSK][WPA-PSK]"
    ensures Classify(caps) == WPA2
  {
    assert Contains(caps, "WPA2") by {
      assert caps == "[" + "WPA2" + "-PSK][WPA-PSK]";
      ContainsInfix("[", "WPA2", "-PSK][WPA-PSK]");
    }
    assert !Contains(caps, "WPA3") by {
      ContainsChars(caps, "WPA3");
      assert "WPA3"[3] == '3';
      assert '3' !in caps;
    }
  }
}
