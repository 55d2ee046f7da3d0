/**
 * The address shown by the connect button (`formatAddress` in
 * `ConnectButton.tsx`): an address of at most 13 characters is shown as it
 * is; a longer one is cut to its first 13 characters, "..." and its last 3.
 */
module AddressFormat {
  const PrefixLength: nat := 13
  const SuffixLength: nat := 3
  const Ellipsis: string := "..."

  function FormatAddress(addr: string): (r: string)
    ensures addr == [] ==> r == []
    ensures |addr| <= PrefixLength ==> r == addr
    ensures |addr| > PrefixLength ==> |r| == PrefixLength + |Ellipsis| + SuffixLength
    ensures |addr| > PrefixLength ==> r[PrefixLength..PrefixLength + |Ellipsis|] == Ellipsis
    ensures |r| <= PrefixLength + |Ellipsis| + SuffixLength
  {
    if addr == [] then []
    else if |addr| <= PrefixLength then addr
    else addr[..PrefixLength] + Ellipsis + addr[|addr| - SuffixLength..]
  }

  function Min(a: nat, b: nat): nat { if a <= b then a else b }

  /**
   * The display always begins with the first min(13, n) characters of the
   * address and ends with its last min(3, n) characters.
   */
  lemma KeepsPrefixAndSuffix(addr: string)
    ensures var r, n := FormatAddress(addr), |addr|;
      Min(PrefixLength, n) <= |r| && r[..Min(PrefixLength, n)] == addr[..Min(PrefixLength, n)]
      && Min(SuffixLength, n) <= |r| && r[|r| - Min(SuffixLength, n)..] == addr[n - Min(SuffixLength, n)..]
  {
  }

  /** Formatting a displayed address again changes nothing. */
  lemma Idempotent(addr: string)
    ensures FormatAddress(FormatAddress(addr)) == FormatAddress(addr)
  {
    var r := FormatAddress(addr);
    if |addr| > PrefixLength {
      assert r[..PrefixLength] == addr[..PrefixLength];
      assert r[|r| - SuffixLength..] == addr[|addr| - SuffixLength..];
    }
  }

  /** Two long addresses have the same display exactly when they share the first 13 and last 3 characters. */
  lemma SameDisplay(a: string, b: string)
    requires |a| > PrefixLength && |b| > PrefixLength
    ensures FormatAddress(a) == FormatAddress(b) <==>
      a[..PrefixLength] == b[..PrefixLength] && a[|a| - SuffixLength..] == b[|b| - SuffixLength..]
  {
    var ra, rb := FormatAddress(a), FormatAddress(b);
    if ra == rb {
      assert ra[..PrefixLength] == a[..PrefixLength];
      assert rb[..PrefixLength] == b[..PrefixLength];
      assert ra[PrefixLength + 3..] == a[|a| - SuffixLength..];
      assert rb[PrefixLength + 3..] == b[|b| - SuffixLength..];
    }
  }
}
