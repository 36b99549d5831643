/** The small pieces of std::string behaviour the vasculature constructor
    and the error messages rely on: find_last_of for one character and
    std::to_string for an unsigned number, with a decimal reader that
    undoes it. */
module Strings {

  datatype Option<T> = None | Some(value: T)

  /** std::string::find_last_of for one character: the last position of c
      in s, or -1 (npos) when c does not occur. */
  function LastIndexOf(s: string, c: char): (r: int)
    ensures -1 <= r < |s|
    ensures r == -1 <==> c !in s
    ensures r >= 0 ==> s[r] == c && forall k :: r < k < |s| ==> s[k] != c
  {
    if s == [] then -1
    else if s[|s| - 1] == c then |s| - 1
    else LastIndexOf(s[..|s| - 1], c)
  }

  /** When the part after a separator does not contain it, that separator
      is the last one. */
  lemma LastIndexOfSplit(front: string, c: char, back: string)
    requires c !in back
    ensures LastIndexOf(front + [c] + back, c) == |front|
  {
    var s := front + [c] + back;
    assert s[|front|] == c;
  }

  /** The text before and the text after the last c in s, when c occurs. */
  function SplitLast(s: string, c: char): (r: Option<(string, string)>)
    ensures r.None? <==> c !in s
    ensures r.Some? ==> s == r.value.0 + [c] + r.value.1 && c !in r.value.1
  {
    var p := LastIndexOf(s, c);
    if p < 0 then None
    else
      assert s == s[..p] + [c] + s[p + 1..];
      Some((s[..p], s[p + 1..]))
  }

  /** Splitting at the last c finds the c that nothing after it repeats. */
  lemma SplitLastOf(front: string, c: char, back: string)
    requires c !in back
    ensures SplitLast(front + [c] + back, c) == Some((front, back))
  {
    var s := front + [c] + back;
    LastIndexOfSplit(front, c, back);
    assert s[..|front|] == front && s[|front| + 1..] == back;
  }

  predicate IsDigit(c: char) {
    '0' <= c <= '9'
  }

  predicate AllDigits(s: string) {
    forall i :: 0 <= i < |s| ==> IsDigit(s[i])
  }

  function DigitChar(d: nat): (c: char)
    requires d < 10
    ensures IsDigit(c) && c as int - '0' as int == d
  {
    ('0' as int + d) as char
  }

  function DigitValue(c: char): (d: nat)
    requires IsDigit(c)
    ensures d < 10 && DigitChar(d) == c
  {
    c as int - '0' as int
  }

  /** std::to_string of an unsigned number: its decimal digits, most
      significant first, without leading zeros. */
  function Decimal(n: nat): (s: string)
    ensures s != [] && AllDigits(s)
    ensures |s| > 1 ==> s[0] != '0'
  {
    if n < 10 then [DigitChar(n)] else Decimal(n / 10) + [DigitChar(n % 10)]
  }

  /** The number a string of decimal digits denotes. */
  function ReadDecimal(s: string): nat
    requires AllDigits(s)
  {
    if s == [] then 0 else 10 * ReadDecimal(s[..|s| - 1]) + DigitValue(s[|s| - 1])
  }

  /** Reading back the decimal digits of n gives n. */
  lemma {:induction false} ReadDecimalOfDecimal(n: nat)
    ensures ReadDecimal(Decimal(n)) == n
  {
    if n >= 10 {
      var s := Decimal(n);
      assert s[..|s| - 1] == Decimal(n / 10);
      ReadDecimalOfDecimal(n / 10);
    }
  }
}
