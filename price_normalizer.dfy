/**
 * `price_conversion`: the integer part of a vendor price cell, reduced to
 * its decimal digits — the text before the first "." with every character
 * outside 0-9 deleted.
 */
module PriceNormalizer {
  import opened IntParsing

  /** `s.split(".")[0]`: the text before the first ".", or all of `s` when it has none. */
  function BeforeFirstDot(s: string): (r: string)
    ensures r <= s && '.' !in r
    ensures r == s || (|r| < |s| && s[|r|] == '.')
  {
    if s == [] || s[0] == '.' then [] else [s[0]] + BeforeFirstDot(s[1..])
  }

  /** `re.sub("[^0-9]", "", s)`: the digits of `s` in their original order. */
  function KeepDigits(s: string): (r: string)
    ensures AllDigits(r) && |r| <= |s|
    ensures AllDigits(s) ==> r == s
  {
    if s == [] then [] else (if IsDigit(s[0]) then [s[0]] else []) + KeepDigits(s[1..])
  }

  function PriceConversion(price: string): (r: string)
    ensures AllDigits(r) && '.' !in r
  {
    KeepDigits(BeforeFirstDot(price))
  }

  /** Filtering distributes over concatenation, so the digits keep their order. */
  lemma {:induction false} KeepDigitsConcat(a: string, b: string)
    ensures KeepDigits(a + b) == KeepDigits(a) + KeepDigits(b)
  {
    if a != [] {
      var head := if IsDigit(a[0]) then [a[0]] else [];
      calc {
        KeepDigits(a + b);
        { assert (a + b)[0] == a[0]; assert (a + b)[1..] == a[1..] + b; }
        head + KeepDigits(a[1..] + b);
        { KeepDigitsConcat(a[1..], b); }
        head + (KeepDigits(a[1..]) + KeepDigits(b));
        (head + KeepDigits(a[1..])) + KeepDigits(b);
        KeepDigits(a) + KeepDigits(b);
      }
    } else {
      assert a + b == b;
    }
  }

  /** Without a ".", the whole text is the integer part. */
  lemma {:induction false} BeforeFirstDotNoDot(s: string)
    requires '.' !in s
    ensures BeforeFirstDot(s) == s
  {
  }

  /** The fractional part after the first "." never matters. */
  lemma {:induction false} BeforeFirstDotSplit(a: string, b: string)
    requires '.' !in a
    ensures BeforeFirstDot(a + "." + b) == a
  {
    if a != [] {
      assert (a + "." + b)[1..] == a[1..] + "." + b;
      BeforeFirstDotSplit(a[1..], b);
    }
  }

  /** A character that is neither a digit nor "." can be inserted anywhere without changing the result. */
  lemma {:induction false} SeparatorIgnored(a: string, c: char, b: string)
    requires !IsDigit(c) && c != '.'
    ensures PriceConversion(a + [c] + b) == PriceConversion(a + b)
  {
    var cb := [c] + b;
    assert a + [c] + b == a + cb;
    if '.' in a {
      BeforeFirstDotKeepsPrefix(a, cb);
      BeforeFirstDotKeepsPrefix(a, b);
    } else {
      var tail := BeforeFirstDot(b);
      assert cb[0] == c && cb[1..] == b;
      assert BeforeFirstDot(cb) == [c] + tail;
      BeforeFirstDotAppend(a, cb);
      BeforeFirstDotAppend(a, b);
      calc {
        PriceConversion(a + cb);
        KeepDigits(a + ([c] + tail));
        { KeepDigitsConcat(a, [c] + tail); }
        KeepDigits(a) + KeepDigits([c] + tail);
        { assert ([c] + tail)[0] == c && ([c] + tail)[1..] == tail; }
        KeepDigits(a) + KeepDigits(tail);
        { KeepDigitsConcat(a, tail); }
        PriceConversion(a + b);
      }
    }
  }

  lemma {:induction false} BeforeFirstDotKeepsPrefix(a: string, b: string)
    requires '.' in a
    ensures BeforeFirstDot(a + b) == BeforeFirstDot(a)
  {
    assert (a + b)[0] == a[0];
    if a[0] != '.' {
      assert (a + b)[1..] == a[1..] + b;
      BeforeFirstDotKeepsPrefix(a[1..], b);
    }
  }

  lemma {:induction false} BeforeFirstDotAppend(a: string, b: string)
    requires '.' !in a
    ensures BeforeFirstDot(a + b) == a + BeforeFirstDot(b)
  {
    if a != [] {
      assert (a + b)[0] == a[0] && a[0] != '.';
      assert (a + b)[1..] == a[1..] + b;
      BeforeFirstDotAppend(a[1..], b);
    } else {
      assert a + b == b;
    }
  }

  /** The normaliser is idempotent: its output has no "." and no non-digit left to remove. */
  lemma PriceConversionIdempotent(price: string)
    ensures PriceConversion(PriceConversion(price)) == PriceConversion(price)
  {
    var r := PriceConversion(price);
    BeforeFirstDotNoDot(r);
  }

  /** The example of the normaliser's documentation: apostrophe separator, kopecks dropped. */
  lemma PriceConversionExample()
    ensures PriceConversion("5'990.00") == "5990"
  {
    assert "5'990" + "." + "00" == "5'990.00";
    assert '.' !in "5'990";
    BeforeFirstDotSplit("5'990", "00");
  }

  lemma PriceConversionThousandsComma()
    ensures PriceConversion("1,234.56") == "1234"
  {
    assert "1,234" + "." + "56" == "1,234.56";
    assert '.' !in "1,234";
    BeforeFirstDotSplit("1,234", "56");
  }

  lemma PriceConversionWholeNumber()
    ensures PriceConversion("100") == "100"
  {
    assert '.' !in "100";
    BeforeFirstDotNoDot("100");
  }
}
