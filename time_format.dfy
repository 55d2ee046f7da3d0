/**
 * The `mm:ss` rendering of the focus timer's remaining seconds (`formatTime`
 * in `FocusTimer.tsx`): minutes and seconds in decimal, each left-padded with
 * '0' to at least two characters, joined by ':'.
 *
 * Its partner is `ParseTime`, which reads such a string back; the round trip
 * `ParseTime(FormatTime(n)) == Some(n)` is proved below.
 */
module TimeFormat {
  import opened Wrappers

  predicate IsDigit(c: char) { '0' <= c <= '9' }

  predicate AllDigits(s: string) { forall i :: 0 <= i < |s| ==> IsDigit(s[i]) }

  function DigitChar(d: nat): (c: char)
    requires d < 10
    ensures IsDigit(c)
  {
    "0123456789"[d]
  }

  function DigitValue(c: char): (d: nat)
    requires IsDigit(c)
    ensures d < 10
  {
    (c as int - '0' as int) as nat
  }

  /** `n.toString()` for a non-negative integer: decimal, no leading zeros. */
  function Decimal(n: nat): (s: string)
    ensures 1 <= |s| && AllDigits(s)
    ensures |s| == 1 <==> n < 10
    ensures s[0] == '0' <==> n == 0
    decreases n
  {
    if n < 10 then [DigitChar(n)] else Decimal(n / 10) + [DigitChar(n % 10)]
  }

  /** The value of a string of decimal digits (leading zeros allowed). */
  function DecimalValue(s: string): nat
    requires AllDigits(s)
  {
    if s == [] then 0 else DecimalValue(s[..|s| - 1]) * 10 + DigitValue(s[|s| - 1])
  }

  /** `s.padStart(width, c)`: left-pad `s` with `c` up to `width` characters. */
  function PadStart(s: string, width: nat, c: char): (r: string)
    ensures |r| == if |s| >= width then |s| else width
    ensures r[|r| - |s|..] == s
    ensures forall i :: 0 <= i < |r| - |s| ==> r[i] == c
  {
    if |s| >= width then s else seq(width - |s|, _ => c) + s
  }

  /**
   * `formatTime(seconds)`: `mins = floor(seconds / 60)` and
   * `secs = seconds % 60`, each padded to two digits, joined by ':'.
   */
  function FormatTime(seconds: nat): (r: string)
    ensures DisplaysSeconds(r, seconds)
  {
    var m := PadStart(Decimal(seconds / 60), 2, '0');
    var ss := PadStart(Decimal(seconds % 60), 2, '0');
    SecondsFieldWidth(seconds % 60);
    PaddedValue(seconds / 60);
    PaddedValue(seconds % 60);
    JoinedFields(m, ss, seconds);
    m + ":" + ss
  }

  /** Index of the first ':' in `s`, if any. */
  function ColonIndex(s: string): (r: Option<nat>)
    ensures r.Some? ==> r.value < |s| && s[r.value] == ':'
                        && forall i :: 0 <= i < r.value ==> s[i] != ':'
    ensures r.None? ==> forall i :: 0 <= i < |s| ==> s[i] != ':'
  {
    if s == [] then None
    else if s[0] == ':' then Some(0)
    else match ColonIndex(s[1..])
         case None => None
         case Some(k) => Some(k + 1)
  }

  /**
   * Reads a `FormatTime` string back: digits, ':', exactly two digits
   * denoting less than 60.
   */
  function ParseTime(s: string): Option<nat>
  {
    match ColonIndex(s)
    case None => None
    case Some(k) =>
      var m, ss := s[..k], s[k + 1..];
      if m != [] && AllDigits(m) && |ss| == 2 && AllDigits(ss) && DecimalValue(ss) < 60
      then Some(DecimalValue(m) * 60 + DecimalValue(ss))
      else None
  }

  lemma {:induction false} DecimalRoundTrip(n: nat)
    ensures DecimalValue(Decimal(n)) == n
    decreases n
  {
    if n >= 10 {
      var s := Decimal(n);
      assert s[..|s| - 1] == Decimal(n / 10);
      DecimalRoundTrip(n / 10);
    }
  }

  lemma {:induction false} LeadingZeros(k: nat, s: string)
    requires AllDigits(s)
    ensures AllDigits(seq(k, _ => '0') + s)
    ensures DecimalValue(seq(k, _ => '0') + s) == DecimalValue(s)
    decreases |s|
  {
    var z := seq(k, _ => '0');
    if s == [] {
      assert z + s == z;
      ZerosValue(k);
    } else {
      var t := z + s;
      assert t[..|t| - 1] == z + s[..|s| - 1];
      LeadingZeros(k, s[..|s| - 1]);
    }
  }

  lemma {:induction false} ZerosValue(k: nat)
    ensures AllDigits(seq(k, _ => '0'))
    ensures DecimalValue(seq(k, _ => '0')) == 0
  {
    if k > 0 {
      var z := seq(k, _ => '0');
      assert z[..k - 1] == seq(k - 1, _ => '0');
      ZerosValue(k - 1);
    }
  }

  /** Padding with zeros keeps the denoted value. */
  lemma PaddedValue(n: nat)
    ensures AllDigits(PadStart(Decimal(n), 2, '0'))
    ensures DecimalValue(PadStart(Decimal(n), 2, '0')) == n
  {
    var d := Decimal(n);
    DecimalRoundTrip(n);
    if |d| < 2 {
      LeadingZeros(2 - |d|, d);
    }
  }

  /**
   * What a `mm:ss` display `r` of `seconds` consists of: the seconds field is
   * the last two characters, is two digits denoting `seconds % 60` (so
   * 00..59), and is preceded by ':'; the minutes field in front of it denotes
   * `seconds / 60`; together `mins * 60 + secs == seconds`.
   */
  predicate DisplaysSeconds(r: string, seconds: nat)
  {
    |r| >= 5 && r[|r| - 3] == ':'
    && AllDigits(r[..|r| - 3]) && AllDigits(r[|r| - 2..])
    && DecimalValue(r[|r| - 2..]) == seconds % 60 < 60
    && DecimalValue(r[..|r| - 3]) == seconds / 60
    && DecimalValue(r[..|r| - 3]) * 60 + DecimalValue(r[|r| - 2..]) == seconds
  }

  /** Joining two fields with the right values gives a display of `seconds`. */
  lemma JoinedFields(m: string, ss: string, seconds: nat)
    requires |m| >= 2 && |ss| == 2 && AllDigits(m) && AllDigits(ss)
    requires DecimalValue(m) == seconds / 60 && DecimalValue(ss) == seconds % 60
    ensures DisplaysSeconds(m + ":" + ss, seconds)
  {
    var r := m + ":" + ss;
    assert r[..|r| - 3] == m;
    assert r[|r| - 2..] == ss;
    MinutesAndSeconds(seconds);
  }

  lemma MinutesAndSeconds(seconds: nat)
    ensures (seconds / 60) * 60 + seconds % 60 == seconds && seconds % 60 < 60
  {
  }

  /** The padded seconds field is exactly two characters. */
  lemma SecondsFieldWidth(secs: nat)
    requires secs < 60
    ensures |PadStart(Decimal(secs), 2, '0')| == 2
  {
    DecimalLength(secs);
  }

  /** A number below 100 has at most two decimal digits, and conversely. */
  lemma {:induction false} DecimalLength(n: nat)
    ensures |Decimal(n)| <= 2 <==> n < 100
    decreases n
  {
    if n >= 10 {
      assert |Decimal(n)| == |Decimal(n / 10)| + 1;
      DecimalLength(n / 10);
    }
  }

  /** The display is exactly five characters `MM:SS` precisely below 100 minutes. */
  lemma FormatTimeLength(seconds: nat)
    ensures |FormatTime(seconds)| == 5 <==> seconds < 6000
  {
    DecimalLength(seconds / 60);
    DecimalLength(seconds % 60);
  }

  lemma {:induction false} ColonIndexAt(s: string, k: nat)
    requires k < |s| && s[k] == ':'
    requires forall i :: 0 <= i < k ==> s[i] != ':'
    ensures ColonIndex(s) == Some(k)
  {
    if k > 0 {
      ColonIndexAt(s[1..], k - 1);
    }
  }

  /** Every string of the shape `DisplaysSeconds` describes parses back to its seconds. */
  lemma ParseDisplayed(r: string, seconds: nat)
    requires DisplaysSeconds(r, seconds)
    ensures ParseTime(r) == Some(seconds)
  {
    var k := |r| - 3;
    assert forall i :: 0 <= i < k ==> r[i] != ':' by {
      forall i | 0 <= i < k ensures r[i] != ':' {
        assert r[i] == r[..k][i];
      }
    }
    ColonIndexAt(r, k);
    assert r[..k] != [];
    assert r[k + 1..] == r[|r| - 2..];
  }

  lemma FormatTimeRoundTrip(seconds: nat)
    ensures ParseTime(FormatTime(seconds)) == Some(seconds)
  {
    ParseDisplayed(FormatTime(seconds), seconds);
  }
}
