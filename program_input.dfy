/** The console's input rules: reading a coin from text, turning typed text
    into the code of an existing slot, and finding a slot by product name. The
    slot list is passed in explicitly. */
module Input {
  import opened Failures
  import opened Coins
  import opened Text
  import opened Slots

  /** `TryParseCoin`: succeeds exactly on the decimal text of a face value,
      yielding that coin; any other text (" 1", "01", "3") fails. */
  function TryParseCoin(text: string): (r: Option<CoinType>)
    ensures r.Some? ==> NatToString(Face(r.value)) == text
    ensures r.None? ==> forall c :: NatToString(Face(c)) != text
  {
    if text == "1" then Some(One)
    else if text == "2" then Some(Two)
    else if text == "5" then Some(Five)
    else if text == "10" then Some(Ten)
    else if text == "20" then Some(Twenty)
    else None
  }

  /** Printing a coin's face value and parsing it back gives the coin. */
  lemma ParseCoinRoundTrip(c: CoinType)
    ensures TryParseCoin(NatToString(Face(c))) == Some(c)
  {
    match c
    case One =>
    case Two =>
    case Five =>
    case Ten =>
    case Twenty =>
  }

  /** What typed text can stand for before any slot is looked at: nothing for
      blank text or when its trimmed, upper-cased form is not 2 or 3
      characters long, that form otherwise. */
  function CodeCandidate(input: string): (r: Option<string>)
    ensures IsNullOrWhiteSpace(input) ==> r.None?
    ensures !(2 <= |ToUpper(Trim(input))| <= 3) ==> r.None?
    ensures r.Some? ==> r.value == ToUpper(Trim(input)) && !IsNullOrWhiteSpace(input)
    ensures r.None? ==> IsNullOrWhiteSpace(input) || !(2 <= |ToUpper(Trim(input))| <= 3)
  {
    if IsNullOrWhiteSpace(input) then None
    else
      var upper := ToUpper(Trim(input));
      if |upper| < 2 || |upper| > 3 then None else Some(upper)
  }

  /** `TryNormalizeSlotCode`: blank input fails; so does input whose trimmed,
      upper-cased form is not 2 or 3 characters long, before any slot is
      looked at. Otherwise that form is the answer exactly when a slot has it
      as its code. */
  method TryNormalizeSlotCode(slots: seq<Slot>, input: string) returns (r: Option<string>)
    ensures CodeCandidate(input).None? ==> r.None?
    ensures CodeCandidate(input).Some? ==>
              (r.Some? <==> exists s :: s in slots && s.code == CodeCandidate(input).value)
    ensures r.Some? ==> r == CodeCandidate(input)
  {
    if IsNullOrWhiteSpace(input) {
      return None;
    }
    var trimmed := Trim(input);
    var upper := ToUpper(trimmed);
    if |upper| < 2 || |upper| > 3 {
      return None;
    }
    assert CodeCandidate(input) == Some(upper);
    for i := 0 to |slots|
      invariant forall j :: 0 <= j < i ==> slots[j].code != upper
    {
      if slots[i].code == upper {
        assert slots[i] in slots;
        return Some(upper);
      }
    }
    assert forall s :: s in slots ==> s.code != upper;
    return None;
  }

  /** The slot's lower-cased product name equals `needle` (when `exact`) or
      starts with it (otherwise). */
  predicate NameMatches(s: Slot, needle: string, exact: bool) {
    if exact then ToLower(s.product.name) == needle else StartsWith(ToLower(s.product.name), needle)
  }

  /** Where the first slot whose product name matches sits, or None. */
  function FirstNameMatch(slots: seq<Slot>, needle: string, exact: bool): (r: Option<nat>)
    ensures r.Some? ==> r.value < |slots| && NameMatches(slots[r.value], needle, exact)
    ensures r.Some? ==> forall j :: 0 <= j < r.value ==> !NameMatches(slots[j], needle, exact)
    ensures r.None? <==> forall j :: 0 <= j < |slots| ==> !NameMatches(slots[j], needle, exact)
  {
    if slots == [] then None
    else if NameMatches(slots[0], needle, exact) then Some(0)
    else match FirstNameMatch(slots[1..], needle, exact)
      case None => None
      case Some(k) => Some(k + 1)
  }

  /** An equal name also starts with the needle, so an exact match is always
      found by the prefix pass too, at the same place or earlier. */
  lemma ExactMatchIsPrefixMatch(slots: seq<Slot>, needle: string)
    requires FirstNameMatch(slots, needle, true).Some?
    ensures FirstNameMatch(slots, needle, false).Some?
    ensures FirstNameMatch(slots, needle, false).value <= FirstNameMatch(slots, needle, true).value
  {
    var i := FirstNameMatch(slots, needle, true).value;
    assert NameMatches(slots[i], needle, false);
  }

  /** `TryFindSlotCodeByProductName`: blank text fails. Otherwise the needle
      is the trimmed, lower-cased text; the first slot whose lower-cased
      product name equals it wins, and only when none does, the first whose
      name starts with it. It fails when neither pass finds a slot. */
  method TryFindSlotCodeByProductName(slots: seq<Slot>, nameText: string) returns (r: Option<string>)
    ensures IsNullOrWhiteSpace(nameText) ==> r.None?
    ensures !IsNullOrWhiteSpace(nameText) ==>
              var needle := ToLower(Trim(nameText));
              var exact := FirstNameMatch(slots, needle, true);
              var prefix := FirstNameMatch(slots, needle, false);
              && (exact.Some? ==> r == Some(slots[exact.value].code))
              && (exact.None? && prefix.Some? ==> r == Some(slots[prefix.value].code))
              && (exact.None? && prefix.None? ==> r.None?)
  {
    if IsNullOrWhiteSpace(nameText) {
      return None;
    }
    var needle := ToLower(Trim(nameText));
    for i := 0 to |slots|
      invariant forall j :: 0 <= j < i ==> !NameMatches(slots[j], needle, true)
    {
      var productName := slots[i].product.name;
      if ToLower(productName) == needle {
        return Some(slots[i].code);
      }
    }
    for i := 0 to |slots|
      invariant forall j :: 0 <= j < i ==> !NameMatches(slots[j], needle, false)
    {
      var productName := slots[i].product.name;
      if StartsWith(ToLower(productName), needle) {
        return Some(slots[i].code);
      }
    }
    return None;
  }
}
