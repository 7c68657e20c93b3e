/**
 * Python's `int(s)` on a string, base 10, as used for the quantity column:
 * surrounding whitespace is ignored, one optional sign, then decimal digits
 * where a single underscore may separate two digits. Anything else raises
 * ValueError, modelled here as `None`.
 */
module IntParsing {
  import opened Wrappers

  predicate IsDigit(c: char) { '0' <= c <= '9' }

  predicate AllDigits(s: string) {
    forall i :: 0 <= i < |s| ==> IsDigit(s[i])
  }

  function DigitValue(c: char): (d: nat)
    requires IsDigit(c)
    ensures d < 10
  {
    (c as int) - ('0' as int)
  }

  function DigitChar(d: nat): (c: char)
    requires d < 10
    ensures IsDigit(c) && DigitValue(c) == d
  {
    (('0' as int) + d) as char
  }

  /**
   * The whitespace `int()` skips around an all-ASCII literal: space, tab,
   * line feed, vertical tab, form feed and carriage return.
   */
  predicate IsSpace(c: char) {
    c == ' ' || ('\t' <= c <= '\r')
  }

  /** A character that can occur anywhere in a string `int()` accepts. */
  predicate IsIntChar(c: char) {
    IsSpace(c) || IsDigit(c) || c == '_' || c == '+' || c == '-'
  }

  /** Drops leading whitespace. */
  function TrimLeft(s: string): string {
    if s != [] && IsSpace(s[0]) then TrimLeft(s[1..]) else s
  }

  /** Drops trailing whitespace. */
  function TrimRight(s: string): string {
    if s != [] && IsSpace(s[|s| - 1]) then TrimRight(s[..|s| - 1]) else s
  }

  /** `TrimLeft` keeps the longest suffix that does not start with a space. */
  lemma {:induction false} TrimLeftSuffix(s: string)
    ensures |TrimLeft(s)| <= |s| && TrimLeft(s) == s[|s| - |TrimLeft(s)|..]
    ensures forall k :: 0 <= k < |s| - |TrimLeft(s)| ==> IsSpace(s[k])
    ensures TrimLeft(s) != [] ==> !IsSpace(TrimLeft(s)[0])
  {
    if s != [] && IsSpace(s[0]) {
      TrimLeftSuffix(s[1..]);
      var r := TrimLeft(s);
      forall k | 0 <= k < |s| - |r| ensures IsSpace(s[k]) {
        if k > 0 {
          assert s[k] == s[1..][k - 1];
        }
      }
    }
  }

  /** `TrimRight` keeps the longest prefix that does not end in a space. */
  lemma {:induction false} TrimRightPrefix(s: string)
    ensures |TrimRight(s)| <= |s| && TrimRight(s) == s[..|TrimRight(s)|]
    ensures forall k :: |TrimRight(s)| <= k < |s| ==> IsSpace(s[k])
    ensures TrimRight(s) != [] ==> !IsSpace(TrimRight(s)[|TrimRight(s)| - 1])
  {
    if s != [] && IsSpace(s[|s| - 1]) {
      var p := s[..|s| - 1];
      TrimRightPrefix(p);
      var r := TrimRight(s);
      assert r == TrimRight(p);
      assert r == s[..|r|];
      forall k | |r| <= k < |s| ensures IsSpace(s[k]) {
        if k < |s| - 1 {
          assert s[k] == p[k];
        }
      }
    }
  }

  function Strip(s: string): string {
    TrimRight(TrimLeft(s))
  }

  predicate DigitsOrUnderscores(d: string) {
    forall i :: 0 <= i < |d| ==> IsDigit(d[i]) || d[i] == '_'
  }

  /**
   * The digit part of an integer literal: starts and ends with a digit,
   * holds only digits and underscores, and every underscore is followed by
   * a digit.
   */
  predicate WellGrouped(d: string) {
    |d| > 0 && IsDigit(d[0]) && IsDigit(d[|d| - 1]) && DigitsOrUnderscores(d) &&
    forall i :: 0 <= i < |d| - 1 && d[i] == '_' ==> IsDigit(d[i + 1])
  }

  /** The number the digits of `d` spell, underscores skipped. */
  function Value(d: string): nat
    requires DigitsOrUnderscores(d)
  {
    if d == [] then 0
    else if d[|d| - 1] == '_' then Value(d[..|d| - 1])
    else 10 * Value(d[..|d| - 1]) + DigitValue(d[|d| - 1])
  }

  /** The text after an optional leading sign. */
  function Unsigned(t: string): string {
    if |t| > 0 && (t[0] == '+' || t[0] == '-') then t[1..] else t
  }

  /** `int(s)`: the value of the literal, or `None` where `int()` raises ValueError. An empty or all-whitespace text is an error. */
  function ParseInt(s: string): (r: Option<int>)
    ensures (forall i :: 0 <= i < |s| ==> IsSpace(s[i])) ==> r.None?
  {
    TrimLeftSuffix(s);
    var t := Strip(s);
    var body := Unsigned(t);
    if WellGrouped(body) then
      Some(if t[0] == '-' then -(Value(body) as int) else Value(body))
    else
      None
  }

  /** `Strip` keeps a slice of its input and removes only whitespace around it. */
  lemma StripSlice(s: string)
    ensures |TrimLeft(s)| <= |s| && |Strip(s)| <= |TrimLeft(s)|
    ensures var a := |s| - |TrimLeft(s)|;
      Strip(s) == s[a..a + |Strip(s)|] &&
      (forall k :: 0 <= k < a ==> IsSpace(s[k])) &&
      (forall k :: a + |Strip(s)| <= k < |s| ==> IsSpace(s[k]))
  {
    var l := TrimLeft(s);
    var t := TrimRight(l);
    TrimLeftSuffix(s);
    TrimRightPrefix(l);
    var a := |s| - |l|;
    assert l == s[a..];
    assert t == l[..|t|];
    assert t == s[a..a + |t|];
    forall k | a + |t| <= k < |s| ensures IsSpace(s[k]) {
      assert s[k] == l[k - a];
    }
  }

  /** `int()` raises on any string holding a character other than whitespace, digits, underscores and signs. */
  lemma ParseIntAlphabet(s: string)
    ensures ParseInt(s).Some? ==> forall i :: 0 <= i < |s| ==> IsIntChar(s[i])
  {
    if ParseInt(s).Some? {
      StripSlice(s);
      var t := Strip(s);
      var body := Unsigned(t);
      var a := |s| - |TrimLeft(s)|;
      assert DigitsOrUnderscores(body);
      forall i | 0 <= i < |s|
        ensures IsIntChar(s[i])
      {
        if a <= i < a + |t| {
          var j := i - a;
          assert s[i] == t[j];
          if |t| > 0 && (t[0] == '+' || t[0] == '-') {
            if j > 0 {
              assert t[j] == body[j - 1];
            }
          } else {
            assert t[j] == body[j];
          }
        }
      }
    }
  }

  /** Decimal notation of a natural number, most significant digit first. */
  function ShowNat(n: nat): (s: string)
    ensures |s| > 0 && AllDigits(s)
  {
    if n < 10 then [DigitChar(n)] else ShowNat(n / 10) + [DigitChar(n % 10)]
  }

  function ShowInt(n: int): (s: string)
    ensures |s| > 0
  {
    if n < 0 then "-" + ShowNat(-n) else ShowNat(n)
  }

  lemma {:induction false} ValueShowNat(n: nat)
    ensures Value(ShowNat(n)) == n
  {
    var s := ShowNat(n);
    if n >= 10 {
      assert s[..|s| - 1] == ShowNat(n / 10);
      ValueShowNat(n / 10);
    }
  }

  /** `int(str(n)) == n`: the parser reads back every integer that decimal notation writes. */
  lemma ParseShowRoundTrip(n: int)
    ensures ParseInt(ShowInt(n)) == Some(n)
  {
    var m: nat := if n < 0 then -n else n;
    var digits := ShowNat(m);
    ValueShowNat(m);
    assert WellGrouped(digits);
    var s := ShowInt(n);
    assert !IsSpace(s[0]) && !IsSpace(s[|s| - 1]);
    assert TrimLeft(s) == s;
    assert TrimRight(s) == s;
    assert Strip(s) == s;
    if n < 0 {
      assert s[1..] == digits;
    } else {
      assert !(s[0] == '+' || s[0] == '-');
    }
  }
}
