/** The texts the status label shows: the idle text, the progress text set after each
    processed photo, and the final text. Numbers are rendered in decimal, as f-strings do. */
module Status {

  function DigitChar(d: nat): char
    requires d < 10
  {
    ('0' as int + d) as char
  }

  predicate IsDigit(c: char) {
    '0' <= c <= '9'
  }

  /** Decimal rendering of a natural number, without leading zeros. */
  function NatToString(n: nat): (s: string)
    ensures s != []
    ensures forall i :: 0 <= i < |s| ==> IsDigit(s[i])
    ensures s[0] == '0' ==> n == 0
    decreases n
  {
    if n < 10 then [DigitChar(n)] else NatToString(n / 10) + [DigitChar(n % 10)]
  }

  /** The number a string of decimal digits denotes. */
  function DigitsValue(s: string): nat
    requires forall i :: 0 <= i < |s| ==> IsDigit(s[i])
  {
    if s == [] then 0 else DigitsValue(s[..|s| - 1]) * 10 + DigitValue(s[|s| - 1])
  }

  function DigitValue(c: char): nat
    requires IsDigit(c)
  {
    c as int - '0' as int
  }

  /** Reading the rendering back gives the number. */
  lemma {:induction false} NatToStringRoundTrip(n: nat)
    ensures DigitsValue(NatToString(n)) == n
    decreases n
  {
    if n >= 10 {
      NatToStringRoundTrip(n / 10);
      var s := NatToString(n);
      assert s[..|s| - 1] == NatToString(n / 10);
    }
  }

  lemma NatToStringInjective(a: nat, b: nat)
    requires NatToString(a) == NatToString(b)
    ensures a == b
  {
    NatToStringRoundTrip(a);
    NatToStringRoundTrip(b);
  }

  /** Text of the status label before any run. */
  const Waiting: string := "En attente..."

  /** Text set when a run starts (with 0) and after each processed photo. */
  function Progress(count: nat, total: nat): string {
    NatToString(count) + "/" + NatToString(total) + " Photos traitées"
  }

  /** Text set when the loop over the photos ends. */
  function Finished(count: nat, total: nat): string {
    "Terminé: " + NatToString(count) + "/" + NatToString(total)
  }

  lemma CancelAround(p: string, a: string, b: string, r: string)
    requires p + a + r == p + b + r
    ensures a == b
  {
    assert |a| == |b|;
    assert a == (p + a + r)[|p|..|p| + |a|];
    assert b == (p + b + r)[|p|..|p| + |b|];
  }

  /** For a given total, the progress text determines the count, and so does the final text:
      the label never shows the same text for two different counts. */
  lemma StatusDeterminesCount(c1: nat, c2: nat, total: nat)
    ensures Progress(c1, total) == Progress(c2, total) ==> c1 == c2
    ensures Finished(c1, total) == Finished(c2, total) ==> c1 == c2
    ensures Progress(c1, total) != Finished(c2, total)
  {
    var tail := "/" + NatToString(total);
    assert Progress(c1, total) == [] + NatToString(c1) + (tail + " Photos traitées");
    assert Progress(c2, total) == [] + NatToString(c2) + (tail + " Photos traitées");
    assert Finished(c1, total) == "Terminé: " + NatToString(c1) + tail;
    assert Finished(c2, total) == "Terminé: " + NatToString(c2) + tail;
    if Progress(c1, total) == Progress(c2, total) {
      CancelAround([], NatToString(c1), NatToString(c2), tail + " Photos traitées");
      NatToStringInjective(c1, c2);
    }
    if Finished(c1, total) == Finished(c2, total) {
      CancelAround("Terminé: ", NatToString(c1), NatToString(c2), tail);
      NatToStringInjective(c1, c2);
    }
    assert Progress(c1, total)[0] != 'T';
  }
}
