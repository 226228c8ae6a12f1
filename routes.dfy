/** The labels a saved walk carries: shortened endpoint addresses or a numbered fallback. */
module Routes {

  import opened Text

  /** A first address part longer than this is truncated. */
  const MaxShortLength: nat := 20
  /** How many characters of a truncated part are kept before the ellipsis. */
  const KeptLength: nat := 17
  const Ellipsis := "..."
  const Arrow := " \U{2192} "
  const FallbackPrefix := "Walk "

  /**
   * The text before the first comma of `address`, cut to 17 characters and an
   * ellipsis when it is longer than 20.
   */
  function ShortenAddress(address: string): (r: string)
    ensures |r| <= MaxShortLength
    ensures ',' !in r
  {
    var first := Split(address, ',')[0];
    if |first| > MaxShortLength then first[..KeptLength] + Ellipsis else first
  }

  /** The result in terms of the first comma-separated part of the address. */
  lemma ShortenAddressFirstPart(address: string, part: string)
    requires IsFirstPart(part, address, ',')
    ensures |part| <= MaxShortLength ==> ShortenAddress(address) == part
    ensures |part| > MaxShortLength ==> ShortenAddress(address) == part[..KeptLength] + Ellipsis
  {
    SplitHeadIsFirstPart(address, ',');
    FirstPartUnique(Split(address, ',')[0], part, address, ',');
  }

  /**
   * `start → end` with both addresses shortened when both fields are filled in,
   * otherwise `Walk n` where `n` is one more than the number of walks saved.
   */
  function GenerateRouteDescription(start: string, end: string, savedWalks: nat): (r: string)
    ensures start != "" && end != "" ==> |r| <= 2 * MaxShortLength + |Arrow|
    ensures start == "" || end == "" ==> |r| > |FallbackPrefix| && r[..|FallbackPrefix|] == FallbackPrefix
  {
    if start != "" && end != "" then ShortenAddress(start) + Arrow + ShortenAddress(end)
    else FallbackPrefix + NatToString(savedWalks + 1)
  }

  /** The fallback label reads back as the number of the walk being saved. */
  lemma FallbackNumbersWalk(start: string, end: string, savedWalks: nat)
    requires start == "" || end == ""
    ensures var r := GenerateRouteDescription(start, end, savedWalks);
      IsDigits(r[|FallbackPrefix|..]) && DigitsValue(r[|FallbackPrefix|..]) == savedWalks + 1
  {
    var r := GenerateRouteDescription(start, end, savedWalks);
    assert r[|FallbackPrefix|..] == NatToString(savedWalks + 1);
    DecimalRoundTrip(savedWalks + 1);
  }

  /** With both endpoints filled in, the label is the two shortened addresses around the arrow. */
  lemma DescriptionJoinsEndpoints(start: string, end: string, savedWalks: nat, s: string, e: string)
    requires start != "" && end != ""
    requires IsFirstPart(s, start, ',') && IsFirstPart(e, end, ',')
    requires |s| <= MaxShortLength && |e| <= MaxShortLength
    ensures GenerateRouteDescription(start, end, savedWalks) == s + Arrow + e
  {
    ShortenAddressFirstPart(start, s);
    ShortenAddressFirstPart(end, e);
  }
}
