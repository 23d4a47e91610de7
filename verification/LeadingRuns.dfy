/** What a greedy character class takes at the start of a text. */
module LeadingRuns {
  function RunLen(cls: char -> bool, s: string): (n: nat)
    ensures n <= |s|
    ensures forall i | 0 <= i < n :: cls(s[i])
    ensures n < |s| ==> !cls(s[n])
  {
    if s != "" && cls(s[0]) then 1 + RunLen(cls, s[1..]) else 0
  }

  /** There is one such length. */
  lemma RunLenIs(cls: char -> bool, s: string, n: nat)
    requires n <= |s| && (forall i | 0 <= i < n :: cls(s[i])) && (n < |s| ==> !cls(s[n]))
    ensures RunLen(cls, s) == n
  {
  }
}
