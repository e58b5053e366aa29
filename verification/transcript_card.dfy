/** The duration label of the transcript card. */
module TranscriptCard {
  import opened Wrappers
  import Text

  /** `r` reads as `m:ss` with `60 * m + ss == n`: minutes in plain decimal,
      a single colon, then exactly two digits below 60. */
  predicate IsClock(r: string, n: nat) {
    var k := |r| - 3;
    && |r| >= 4
    && r[k] == ':'
    && (forall i :: 0 <= i < |r| && i != k ==> r[i] != ':')
    && Text.AllDigits(r[..k])
    && (k == 1 || r[0] != '0')
    && Text.AllDigits(r[k + 1..])
    && Text.ParseNat(r[k + 1..]) < 60
    && 60 * Text.ParseNat(r[..k]) + Text.ParseNat(r[k + 1..]) == n
  }

  /** Two decimal digits read back as the number they spell. */
  lemma TwoDigits(d: nat)
    requires d < 100
    ensures Text.ParseNat([Text.DigitChar(d / 10), Text.DigitChar(d % 10)]) == d
  {
    var two := [Text.DigitChar(d / 10), Text.DigitChar(d % 10)];
    assert two[..1] == [Text.DigitChar(d / 10)];
    assert two[..1][..0] == [];
    assert Text.ParseNat(two[..1]) == d / 10;
  }

  /** `secs.toString().padStart(2, "0")` for a seconds part below 60 is its
      two decimal digits. */
  lemma SecondsField(d: nat)
    requires d < 60
    ensures Text.PadStart(Text.NatToString(d), 2, '0') == [Text.DigitChar(d / 10), Text.DigitChar(d % 10)]
  {
    if d >= 10 {
      TwoDigitString(d);
    } else {
      OneDigitString(d);
    }
  }

  lemma TwoDigitString(d: nat)
    requires 10 <= d < 100
    ensures Text.PadStart(Text.NatToString(d), 2, '0') == [Text.DigitChar(d / 10), Text.DigitChar(d % 10)]
  {
    var hi := d / 10;
    var lo := d % 10;
    assert 1 <= hi < 10 && lo < 10;
    var t := Text.NatToString(hi);
    assert t == [Text.DigitChar(hi)];
    var s := Text.NatToString(d);
    assert s == t + [Text.DigitChar(lo)];
    assert s == [Text.DigitChar(hi), Text.DigitChar(lo)];
    assert Text.PadStart(s, 2, '0') == s;
  }

  lemma OneDigitString(d: nat)
    requires d < 10
    ensures Text.PadStart(Text.NatToString(d), 2, '0') == [Text.DigitChar(d / 10), Text.DigitChar(d % 10)]
  {
    var s := Text.NatToString(d);
    assert s == [Text.DigitChar(d)];
    assert Text.PadStart(s, 2, '0') == Text.PadStart(['0'] + s, 2, '0');
    assert Text.DigitChar(0) == '0';
  }

  /** The `${mins}:${secs}` label for a positive duration. */
  function Clock(n: nat): string
  {
    Text.NatToString(n / 60) + ":" + Text.PadStart(Text.NatToString(n % 60), 2, '0')
  }

  /** Digits, a colon and two digits: the colon sits three from the end
      and nowhere else. */
  lemma ColonJoin(mins: string, secs: string)
    requires Text.AllDigits(mins) && Text.AllDigits(secs) && |secs| == 2
    ensures var r := mins + ":" + secs;
      && |r| - 3 == |mins|
      && r[..|mins|] == mins && r[|mins|] == ':' && r[|mins| + 1..] == secs
      && forall i :: 0 <= i < |r| && i != |mins| ==> r[i] != ':'
  {
    var r := mins + ":" + secs;
    assert r[..|mins|] == mins;
    assert r[|mins| + 1..] == secs;
    forall i | 0 <= i < |r| && i != |mins|
      ensures r[i] != ':'
    {
      if i < |mins| {
        assert r[i] == mins[i];
      } else {
        assert r[i] == secs[i - |mins| - 1];
      }
    }
  }

  /** The label splits back into minutes and seconds that recombine to the
      duration. */
  lemma ClockReadsBack(n: nat)
    ensures IsClock(Clock(n), n)
  {
    var m := n / 60;
    var d := n % 60;
    var mins := Text.NatToString(m);
    var secs := [Text.DigitChar(d / 10), Text.DigitChar(d % 10)];
    SecondsField(d);
    TwoDigits(d);
    Text.ParseNatToString(m);
    assert Clock(n) == mins + ":" + secs;
    ColonJoin(mins, secs);
    assert 60 * m + d == n;
  }

  /** `formatDuration(seconds)`: `None` is a missing duration.  A missing or
      zero duration is "N/A"; any other is `m:ss`. */
  function FormatDuration(seconds: Option<nat>): (r: string)
    ensures r == "N/A" <==> seconds.None? || seconds.value == 0
    ensures seconds.Some? && seconds.value > 0 ==> IsClock(r, seconds.value)
  {
    if seconds.None? || seconds.value == 0 then "N/A"
    else
      ClockReadsBack(seconds.value);
      Clock(seconds.value)
  }
}
