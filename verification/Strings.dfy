/** The string operations the models share: searching, splitting and decimal printing. */
module Strings {

  /**
   `s.find(c, from)`: the first position at or after `from` holding c. The length of s stands for
   `npos`, also when `from` lies beyond the end.
   */
  function Find(s: string, c: char, from: nat): (i: nat)
    ensures i <= |s|
    ensures from <= |s| ==> from <= i && c !in s[from..i]
    ensures i < |s| ==> from <= i && s[i] == c
    ensures from <= |s| && i == |s| ==> c !in s[from..]
    decreases |s| - from
  {
    if from >= |s| then |s| else if s[from] == c then from else Find(s, c, from + 1)
  }

  /** `s.find_first_not_of(c, from)`, with the length of s for `npos`. */
  function FindNot(s: string, c: char, from: nat): (i: nat)
    ensures i <= |s|
    ensures from <= |s| ==> from <= i && forall k :: from <= k < i ==> s[k] == c
    ensures i < |s| ==> from <= i && s[i] != c
    decreases |s| - from
  {
    if from >= |s| then |s| else if s[from] != c then from else FindNot(s, c, from + 1)
  }

  predicate OccursAt(s: string, p: string, i: nat) {
    i + |p| <= |s| && s[i..i + |p|] == p
  }

  ghost predicate Contains(s: string, p: string) {
    exists i: nat :: OccursAt(s, p, i)
  }

  /** `s.find(p, from)`, with `|s| + 1` for `npos`: the empty string is found even at the end. */
  function FindSub(s: string, p: string, from: nat): (i: nat)
    ensures i <= |s| ==> from <= i && OccursAt(s, p, i)
    ensures i <= |s| + 1
    ensures forall k: nat :: from <= k < i ==> !OccursAt(s, p, k)
    decreases |s| - from
  {
    if from > |s| then |s| + 1
    else if OccursAt(s, p, from) then from
    else FindSub(s, p, from + 1)
  }

  lemma FindSubFindsAll(s: string, p: string)
    ensures FindSub(s, p, 0) <= |s| <==> Contains(s, p)
  {
  }

  // ---------------------------------------------------------------------------------------------
  // Decimal printing
  // ---------------------------------------------------------------------------------------------

  function Digit(d: nat): char
    requires d < 10
  {
    '0' + d as char
  }

  /** `std::to_string` of an unsigned number. */
  function Decimal(n: nat): (s: string)
    ensures |s| > 0 && (|s| == 1 <==> n < 10)
  {
    if n < 10 then [Digit(n)] else Decimal(n / 10) + [Digit(n % 10)]
  }

  predicate IsDigit(c: char) {
    '0' <= c <= '9'
  }

  /** The number a string of decimal digits denotes, the last digit counting once. */
  function ReadDecimal(s: string): nat
    requires forall c <- s :: IsDigit(c)
  {
    if s == "" then 0
    else
      var c := s[|s| - 1];
      assert c in s && IsDigit(c);
      ReadDecimal(s[..|s| - 1]) * 10 + (c - '0') as nat
  }

  /** A number prints as decimal digits that denote it, without a leading zero unless it is one. */
  lemma {:induction false} DecimalReadsBack(n: nat)
    ensures forall c <- Decimal(n) :: IsDigit(c)
    ensures ReadDecimal(Decimal(n)) == n
    ensures n > 0 ==> Decimal(n)[0] != '0'
  {
    var s := Decimal(n);
    if n < 10 {
      assert s[..0] == "";
    } else {
      DecimalReadsBack(n / 10);
      assert s[..|s| - 1] == Decimal(n / 10) && s[0] == Decimal(n / 10)[0];
    }
  }

  /** Two numbers that print alike are equal. */
  lemma DecimalInjective(m: nat, n: nat)
    requires Decimal(m) == Decimal(n)
    ensures m == n
  {
    DecimalReadsBack(m);
    DecimalReadsBack(n);
  }
}
