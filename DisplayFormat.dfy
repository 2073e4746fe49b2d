/**
 * The display helpers: the delivery-time caption, the chili string for a
 * spice level, and the veg / non-veg badge.
 */
module DisplayFormat {
  import opened Types
  import opened Text

  /**
   * `formatDeliveryTime`: under an hour, "N mins"; otherwise whole hours
   * "Hh", with the remaining minutes as "Hh Mm" when there are any.
   */
  function FormatDeliveryTime(minutes: nat): (s: string)
    ensures |s| >= 2 && IsDigit(s[0])
    ensures minutes < 60 <==> s[|s| - 1] == 's'
    ensures minutes >= 60 && minutes % 60 == 0 <==> s[|s| - 1] == 'h'
    ensures minutes >= 60 && minutes % 60 != 0 <==> s[|s| - 1] == 'm'
  {
    if minutes < 60 then NatToString(minutes) + " mins"
    else
      var hours, mins := minutes / 60, minutes % 60;
      if mins > 0 then NatToString(hours) + "h " + NatToString(mins) + "m"
      else NatToString(hours) + "h"
  }

  /** The length of the run of digits that starts `s`. */
  function LeadingDigits(s: string): (n: nat)
    ensures n <= |s|
    ensures forall i :: 0 <= i < n ==> IsDigit(s[i])
    ensures n < |s| ==> !IsDigit(s[n])
  {
    if s != [] && IsDigit(s[0]) then 1 + LeadingDigits(s[1..]) else 0
  }

  /**
   * Reads a delivery-time caption back into minutes: the inverse of
   * `FormatDeliveryTime`. Only captions written as that function writes them
   * are read: numbers without leading zeros, " mins" under an hour, a positive
   * number of hours, and minutes from 1 to 59 after the hours.
   */
  function ParseDeliveryTime(s: string): Option<nat>
  {
    var k := LeadingDigits(s);
    if k == 0 || !IsNumeral(s[..k]) then None else ParseUnits(ParseNat(s[..k]), s[k..])
  }

  /** A non-empty run of digits written as `NatToString` writes its value: no leading zeros. */
  predicate IsNumeral(d: string)
  {
    d != [] && (forall i :: 0 <= i < |d| ==> IsDigit(d[i])) && NatToString(ParseNat(d)) == d
  }

  /** Reads what follows the leading number `n` of a caption. */
  function ParseUnits(n: nat, rest: string): Option<nat>
  {
    if rest == " mins" then (if n < 60 then Some(n) else None)
    else if rest == "h" then (if n > 0 then Some(60 * n) else None)
    else if |rest| >= 3 && rest[..2] == "h " && rest[|rest| - 1] == 'm' then
      var mid := rest[2..|rest| - 1];
      if n > 0 && IsNumeral(mid) && 0 < ParseNat(mid) < 60 then Some(60 * n + ParseNat(mid)) else None
    else None
  }

  lemma {:induction false} LeadingDigitsOf(digits: string, tail: string)
    requires forall i :: 0 <= i < |digits| ==> IsDigit(digits[i])
    requires tail == [] || !IsDigit(tail[0])
    ensures LeadingDigits(digits + tail) == |digits|
  {
    if digits != [] {
      assert (digits + tail)[1..] == digits[1..] + tail;
      LeadingDigitsOf(digits[1..], tail);
    } else {
      assert digits + tail == tail;
    }
  }

  /** A caption that starts with the decimal form of `n` is read as `n` followed by its units. */
  lemma ParseAfterNumber(n: nat, tail: string)
    requires tail != [] && !IsDigit(tail[0])
    ensures ParseDeliveryTime(NatToString(n) + tail) == ParseUnits(n, tail)
  {
    var d := NatToString(n);
    LeadingDigitsOf(d, tail);
    assert (d + tail)[..|d|] == d && (d + tail)[|d|..] == tail;
    ParseNatToString(n);
  }

  lemma ParseMinutesPart(hours: nat, mins: nat)
    requires hours > 0 && 0 < mins < 60
    ensures ParseUnits(hours, "h " + NatToString(mins) + "m") == Some(60 * hours + mins)
  {
    var dm := NatToString(mins);
    var tail := "h " + dm + "m";
    assert tail[0] == 'h' && |tail| > 3;
    assert tail[..2] == "h " && tail[|tail| - 1] == 'm';
    assert tail[2..|tail| - 1] == dm;
    ParseNatToString(mins);
  }

  /** Every caption reads back as the number of minutes it was made from. */
  lemma FormatDeliveryTimeRoundTrip(minutes: nat)
    ensures ParseDeliveryTime(FormatDeliveryTime(minutes)) == Some(minutes)
  {
    if minutes < 60 {
      ParseAfterNumber(minutes, " mins");
    } else if minutes % 60 == 0 {
      RoundTripWholeHours(minutes);
    } else {
      RoundTripHoursAndMinutes(minutes);
    }
  }

  lemma RoundTripWholeHours(minutes: nat)
    requires minutes >= 60 && minutes % 60 == 0
    ensures ParseDeliveryTime(FormatDeliveryTime(minutes)) == Some(minutes)
  {
    assert FormatDeliveryTime(minutes) == NatToString(minutes / 60) + "h";
    ParseAfterNumber(minutes / 60, "h");
  }

  lemma RoundTripHoursAndMinutes(minutes: nat)
    requires minutes >= 60 && minutes % 60 != 0
    ensures ParseDeliveryTime(FormatDeliveryTime(minutes)) == Some(minutes)
  {
    var hours, mins := HoursAndMinutesCaption(minutes);
    ParseHoursAndMinutes(hours, mins);
  }

  lemma ParseHoursAndMinutes(hours: nat, mins: nat)
    requires hours > 0 && 0 < mins < 60
    ensures ParseDeliveryTime(NatToString(hours) + ("h " + NatToString(mins) + "m")) == Some(60 * hours + mins)
  {
    ParseAfterNumber(hours, "h " + NatToString(mins) + "m");
    ParseMinutesPart(hours, mins);
  }

  /** A caption with both parts is the hours, then "h ", the minutes and "m". */
  lemma HoursAndMinutesCaption(minutes: nat) returns (hours: nat, mins: nat)
    requires minutes >= 60 && minutes % 60 != 0
    ensures hours > 0 && 0 < mins < 60 && 60 * hours + mins == minutes
    ensures FormatDeliveryTime(minutes) == NatToString(hours) + ("h " + NatToString(mins) + "m")
  {
    hours, mins := minutes / 60, minutes % 60;
  }

  /** A caption that reads back as `minutes` is the very caption made from `minutes`. */
  lemma ParseDeliveryTimeCanonical(s: string, minutes: nat)
    requires ParseDeliveryTime(s) == Some(minutes)
    ensures s == FormatDeliveryTime(minutes)
  {
    var k := LeadingDigits(s);
    var d, rest := s[..k], s[k..];
    assert s == d + rest;
    UnitsCanonical(ParseNat(d), rest, minutes);
  }

  /** The units read after the number `n` are those `FormatDeliveryTime` writes after it. */
  lemma UnitsCanonical(n: nat, rest: string, minutes: nat)
    requires ParseUnits(n, rest) == Some(minutes)
    ensures NatToString(n) + rest == FormatDeliveryTime(minutes)
  {
    if rest == " mins" {
    } else if rest == "h" {
      assert minutes / 60 == n && minutes % 60 == 0;
    } else {
      var mid := rest[2..|rest| - 1];
      assert rest == "h " + mid + "m";
      HoursAndMinutesCanonical(n, ParseNat(mid), minutes);
    }
  }

  /** Hours `n` and minutes `m` from 1 to 59 are written as `FormatDeliveryTime` writes `60 * n + m`. */
  lemma HoursAndMinutesCanonical(n: nat, m: nat, minutes: nat)
    requires n > 0 && 0 < m < 60 && minutes == 60 * n + m
    ensures FormatDeliveryTime(minutes) == NatToString(n) + ("h " + NatToString(m) + "m")
  {
    assert minutes % 60 == m;
    var hours, mins := HoursAndMinutesCaption(minutes);
    assert 60 * hours + mins == 60 * n + m;
    assert hours == n && mins == m;
  }

  /** The reader and the formatter are inverse: a string reads as `minutes` exactly when it is that caption. */
  lemma ParseDeliveryTimeIff(s: string, minutes: nat)
    ensures ParseDeliveryTime(s) == Some(minutes) <==> s == FormatDeliveryTime(minutes)
  {
    if ParseDeliveryTime(s) == Some(minutes) {
      ParseDeliveryTimeCanonical(s, minutes);
    } else if s == FormatDeliveryTime(minutes) {
      FormatDeliveryTimeRoundTrip(minutes);
    }
  }

  /** Different delivery times never share a caption. */
  lemma FormatDeliveryTimeInjective(a: nat, b: nat)
    requires FormatDeliveryTime(a) == FormatDeliveryTime(b)
    ensures a == b
  {
    FormatDeliveryTimeRoundTrip(a);
    FormatDeliveryTimeRoundTrip(b);
  }

  /** One chili: U+1F336 followed by the emoji presentation selector U+FE0F. */
  const Chili: string := "\U{1F336}\U{FE0F}"

  /** The spice levels in rising order; 0 for an absent or unknown level. */
  function SpiceRank(level: Option<string>): nat
  {
    if level == Some("mild") then 1
    else if level == Some("medium") then 2
    else if level == Some("hot") then 3
    else if level == Some("extra-hot") then 4
    else 0
  }

  /** `getSpiceLevelEmoji`: one chili per step of heat, nothing for an absent or unknown level. */
  function SpiceLevelEmoji(level: Option<string>): (s: string)
    ensures |s| == 2 * SpiceRank(level)
    ensures forall i :: 0 <= i < |s| ==> s[i] == Chili[i % 2]
  {
    match level
    case Some(name) =>
      if name == "mild" then Chili
      else if name == "medium" then Chili + Chili
      else if name == "hot" then Chili + Chili + Chili
      else if name == "extra-hot" then Chili + Chili + Chili + Chili
      else ""
    case None => ""
  }

  /** A hotter level shows strictly more chilies, so the four levels are told apart. */
  lemma SpiceLevelEmojiOrder(a: Option<string>, b: Option<string>)
    ensures SpiceRank(a) < SpiceRank(b) ==> |SpiceLevelEmoji(a)| < |SpiceLevelEmoji(b)|
    ensures SpiceLevelEmoji(a) == SpiceLevelEmoji(b) <==> SpiceRank(a) == SpiceRank(b)
  {
    var sa, sb := SpiceLevelEmoji(a), SpiceLevelEmoji(b);
    if SpiceRank(a) == SpiceRank(b) {
      assert |sa| == |sb|;
      assert forall i :: 0 <= i < |sa| ==> sa[i] == sb[i];
    }
  }

  datatype VegIndicator = VegIndicator(color: string, symbol: string, labelText: string)

  /** `getVegIndicator`: a green dot labelled "Veg", or a red dot labelled "Non-Veg". */
  function GetVegIndicator(isVeg: bool): (v: VegIndicator)
    ensures v.symbol == "\U{25CF}"
    ensures v.color == "green" <==> isVeg
    ensures v.color == "red" <==> !isVeg
    ensures v.labelText == if isVeg then "Veg" else "Non-Veg"
  {
    if isVeg then VegIndicator("green", "\U{25CF}", "Veg")
    else VegIndicator("red", "\U{25CF}", "Non-Veg")
  }

  /** The badge tells veg from non-veg by its colour and by its label alike. */
  lemma GetVegIndicatorDistinguishes(a: bool, b: bool)
    ensures GetVegIndicator(a) == GetVegIndicator(b) <==> a == b
    ensures a != b ==> GetVegIndicator(a).color != GetVegIndicator(b).color
    ensures a != b ==> GetVegIndicator(a).labelText != GetVegIndicator(b).labelText
  {
  }
}
