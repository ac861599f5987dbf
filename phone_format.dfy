/**
 * The phone field's formatter: whatever is typed, keep the digits, drop the
 * first two (taken to be the country code 90), and lay out the next ten as
 * `+90 DDD DDD DD DD`, as far as they go.
 */
module PhoneFormat {
  import opened JsText

  const Prefix: string := "+90 "

  /** `_formatPhoneNumber`: strip the non-digits, then lay out what remains. */
  function FormatPhoneNumber(value: string): string {
    FormatNumbers(Digits(value))
  }

  /** The `formatted +=` steps of `_formatPhoneNumber` on the digit string `numbers`, nested as in the source. */
  function FormatNumbers(numbers: string): string {
    if numbers == "" || numbers == "90" then Prefix
    else
      Prefix +
      if |numbers| > 2 then
        Slice(numbers, 2, 5) +
        if |numbers| > 5 then
          " " + Slice(numbers, 5, 8) +
          if |numbers| > 8 then
            " " + Slice(numbers, 8, 10) +
            if |numbers| > 10 then " " + Slice(numbers, 10, 12) else ""
          else ""
        else ""
      else ""
  }

  /** The pattern `^\+90 [0-9]{3} [0-9]{3} [0-9]{2} [0-9]{2}$` that validation checks. */
  predicate PhonePattern(s: string) {
    && |s| == 17
    && s[..4] == Prefix
    && forall i :: 4 <= i < 17 ==> if i == 7 || i == 11 || i == 14 then s[i] == ' ' else IsDigit(s[i])
  }

  predicate AllDigits(s: string) {
    forall i :: 0 <= i < |s| ==> IsDigit(s[i])
  }

  /** The digits that make it into the output: the third to the twelfth. */
  function Kept(numbers: string): (d: string)
    ensures |d| <= 10
    ensures |numbers| <= 2 <==> d == ""
  {
    if |numbers| > 2 then numbers[2..if |numbers| < 12 then |numbers| else 12] else ""
  }

  /** `d` cut into groups of the given sizes (the remainder last), separated by single spaces. */
  function Grouped(d: string, sizes: seq<nat>): string
    decreases sizes
  {
    if sizes == [] || |d| <= sizes[0] then d
    else d[..sizes[0]] + (" " + Grouped(d[sizes[0]..], sizes[1..]))
  }

  /** Up to ten digits in groups of 3, 3, 2 and 2. */
  function Layout(d: string): string {
    Grouped(d, [3, 3, 2])
  }

  /** Where the layout puts its spaces: after the third, sixth and eighth digit, when more follow. */
  predicate SpacedAt(l: string) {
    forall j :: 0 <= j < |l| ==> if j == 3 || j == 7 || j == 10 then l[j] == ' ' else IsDigit(l[j])
  }

  lemma DigitsOfSpaced(s: string)
    ensures Digits(" " + s) == Digits(s)
  {
    assert (" " + s)[1..] == s;
  }

  lemma DigitsOfPrefix(s: string)
    ensures Digits(Prefix + s) == "90" + Digits(s)
  {
    var w := Prefix + s;
    var w1, w2 := "90 " + s, "0 " + s;
    assert w[0] == '+' && w[1..] == w1;
    assert w1[0] == '9' && w1[1..] == w2;
    assert w2[0] == '0' && w2[1..] == " " + s;
    DigitsOfSpaced(s);
    assert Digits(w2) == "0" + Digits(s);
    assert Digits(w1) == "9" + ("0" + Digits(s));
  }

  /** Grouping adds only spaces: the digits of the layout are the digits laid out. */
  lemma {:induction false} DigitsOfGrouped(d: string, sizes: seq<nat>)
    requires AllDigits(d)
    ensures Digits(Grouped(d, sizes)) == d
    decreases sizes
  {
    if sizes == [] || |d| <= sizes[0] {
      DigitsOfDigits(d);
    } else {
      var k := sizes[0];
      var head, tail := d[..k], d[k..];
      var rest := Grouped(tail, sizes[1..]);
      assert Grouped(d, sizes) == head + (" " + rest);
      assert Digits(rest) == tail by {
        assert AllDigits(tail);
        DigitsOfGrouped(tail, sizes[1..]);
      }
      assert Digits(head) == head by {
        DigitsOfDigits(head);
      }
      DigitsAppend(head, " " + rest);
      DigitsOfSpaced(rest);
      assert head + tail == d;
    }
  }

  /** The layout, written out for each length. */
  lemma LayoutCases(d: string)
    requires |d| <= 10
    ensures |d| <= 3 ==> Layout(d) == d
    ensures 3 < |d| <= 6 ==> Layout(d) == d[..3] + (" " + d[3..])
    ensures 6 < |d| <= 8 ==> Layout(d) == d[..3] + (" " + d[3..6] + (" " + d[6..]))
    ensures 8 < |d| ==> Layout(d) == d[..3] + (" " + d[3..6] + (" " + d[6..8] + (" " + d[8..])))
  {
    if 3 < |d| {
      var e := d[3..];
      assert Layout(d) == d[..3] + (" " + Grouped(e, [3, 2])) by {
        assert [3, 3, 2][1..] == [3, 2];
      }
      if 6 < |d| {
        assert e[..3] == d[3..6] && e[3..] == d[6..];
        assert Grouped(e, [3, 2]) == d[3..6] + (" " + Grouped(d[6..], [2])) by {
          assert [3, 2][1..] == [2];
        }
        if 8 < |d| {
          var f := d[6..];
          assert f[..2] == d[6..8] && f[2..] == d[8..];
          assert Grouped(f, [2]) == d[6..8] + (" " + Grouped(d[8..], [])) by {
            assert [2][1..] == [];
          }
        }
      }
    }
  }

  /** The formatter is the prefix followed by the layout of the kept digits. */
  lemma FormatIsLayout(value: string)
    ensures FormatPhoneNumber(value) == Prefix + Layout(Kept(Digits(value)))
  {
    NumbersLayout(Digits(value));
  }

  /** A slice of the digits between the third and the twelfth is a slice of the kept digits. */
  lemma SliceOfKept(n: string, lo: nat, hi: nat)
    requires 2 <= lo <= hi <= 12
    ensures var top := if hi < |n| then hi else |n|;
      lo <= top ==> Slice(n, lo, hi) == Kept(n)[lo - 2..top - 2]
  {
    var top := if hi < |n| then hi else |n|;
    if lo <= top {
      var d := Kept(n);
      var m := if |n| < 12 then |n| else 12;
      assert Slice(n, lo, hi) == n[lo..top];
      if |n| > 2 {
        assert d == n[2..m];
        assert top <= m;
        forall i | 0 <= i < top - lo
          ensures n[lo..top][i] == d[lo - 2..top - 2][i]
        {
          assert d[lo - 2..top - 2][i] == d[lo - 2 + i] == n[lo + i];
        }
      }
    }
  }

  /** The nested slices of the formatter are the prefix and the layout of the kept digits, for every length. */
  lemma NumbersLayout(n: string)
    ensures FormatNumbers(n) == Prefix + Layout(Kept(n))
  {
    LayoutCases(Kept(n));
    if |n| <= 2 {
      assert Kept(n) == "";
    } else if |n| <= 5 {
      NumbersLayoutShort(n);
    } else if |n| <= 8 {
      NumbersLayoutMiddle(n);
    } else if |n| <= 10 {
      NumbersLayoutTen(n);
    } else {
      NumbersLayoutLong(n);
    }
  }

  lemma NumbersLayoutShort(n: string)
    requires 2 < |n| <= 5
    ensures FormatNumbers(n) == Prefix + Kept(n)
  {
    var p1 := Slice(n, 2, 5);
    assert p1 == Kept(n) by { SliceOfKept(n, 2, 5); }
    assert FormatNumbers(n) == Prefix + (p1 + "");
  }

  lemma NumbersLayoutMiddle(n: string)
    requires 5 < |n| <= 8
    ensures var d := Kept(n); FormatNumbers(n) == Prefix + (d[..3] + (" " + d[3..]))
  {
    var d := Kept(n);
    var p1, p2 := Slice(n, 2, 5), Slice(n, 5, 8);
    assert p1 == d[..3] by { SliceOfKept(n, 2, 5); }
    assert p2 == d[3..] by { SliceOfKept(n, 5, 8); }
    assert FormatNumbers(n) == Prefix + (p1 + (" " + p2 + ""));
  }

  lemma NumbersLayoutTen(n: string)
    requires 8 < |n| <= 10
    ensures var d := Kept(n); FormatNumbers(n) == Prefix + (d[..3] + (" " + d[3..6] + (" " + d[6..])))
  {
    var d := Kept(n);
    var p1, p2, p3 := Slice(n, 2, 5), Slice(n, 5, 8), Slice(n, 8, 10);
    assert p1 == d[..3] by { SliceOfKept(n, 2, 5); }
    assert p2 == d[3..6] by { SliceOfKept(n, 5, 8); }
    assert p3 == d[6..] by { SliceOfKept(n, 8, 10); }
    assert FormatNumbers(n) == Prefix + (p1 + (" " + p2 + (" " + p3 + "")));
  }

  lemma NumbersLayoutLong(n: string)
    requires 10 < |n|
    ensures var d := Kept(n);
      FormatNumbers(n) == Prefix + (d[..3] + (" " + d[3..6] + (" " + d[6..8] + (" " + d[8..]))))
  {
    var d := Kept(n);
    var p1, p2, p3, p4 := Slice(n, 2, 5), Slice(n, 5, 8), Slice(n, 8, 10), Slice(n, 10, 12);
    assert p1 == d[..3] by { SliceOfKept(n, 2, 5); }
    assert p2 == d[3..6] by { SliceOfKept(n, 5, 8); }
    assert p3 == d[6..8] by { SliceOfKept(n, 8, 10); }
    assert p4 == d[8..] by { SliceOfKept(n, 10, 12); }
    assert FormatNumbers(n) == Prefix + (p1 + (" " + p2 + (" " + p3 + (" " + p4))));
  }

  /** The layout has the spaces of the template and digits everywhere else, and never ends in a space. */
  lemma LayoutShape(d: string)
    requires |d| <= 10 && AllDigits(d)
    ensures |Layout(d)| == |d| + (if |d| > 8 then 3 else if |d| > 6 then 2 else if |d| > 3 then 1 else 0)
    ensures SpacedAt(Layout(d))
    ensures d != "" ==> Layout(d)[|Layout(d)| - 1] == d[|d| - 1]
  {
    LayoutCases(d);
    var l := Layout(d);
    if |d| > 3 {
      forall j | 0 <= j < |l|
        ensures l[j] == if j < 3 then d[j] else if j == 3 then ' ' else if j < 7 then d[j - 1]
          else if j == 7 then ' ' else if j < 10 then d[j - 2] else if j == 10 then ' ' else d[j - 3]
      {
      }
    }
  }

  /**
   * Only the country code survives exactly when the input holds at most two
   * digits (in particular none, or just "90").
   */
  lemma FormatBarePrefix(value: string)
    ensures FormatPhoneNumber(value) == Prefix <==> |Digits(value)| <= 2
  {
    FormatIsLayout(value);
    var d := Kept(Digits(value));
    LayoutShape(d);
  }

  /**
   * The output follows the `+90 DDD DDD DD DD` template as far as it goes: `+90 `, then
   * digits with single spaces at positions 7, 11 and 14, never a trailing space, at most
   * 17 characters; and its digits are `90` followed by the third to twelfth digits typed.
   */
  lemma FormatShape(value: string)
    ensures var r := FormatPhoneNumber(value);
      && 4 <= |r| <= 17
      && r[..4] == Prefix
      && (forall i :: 4 <= i < |r| ==> if i == 7 || i == 11 || i == 14 then r[i] == ' ' else IsDigit(r[i]))
      && (|r| > 4 ==> r[|r| - 1] != ' ')
      && Digits(r) == "90" + Kept(Digits(value))
  {
    FormatIsLayout(value);
    var d := Kept(Digits(value));
    assert AllDigits(d);
    var l := Layout(d);
    LayoutShape(d);
    assert Digits(Prefix + l) == "90" + d by {
      DigitsOfGrouped(d, [3, 3, 2]);
      DigitsOfPrefix(l);
    }
    var r := Prefix + l;
    assert forall i :: 4 <= i < |r| ==> r[i] == l[i - 4];
  }

  /**
   * The output matches the pattern validation checks exactly when at least twelve digits
   * were typed; it is never blank, so a shorter number fails on format, not as missing.
   */
  lemma FormatMatchesPattern(value: string)
    ensures PhonePattern(FormatPhoneNumber(value)) <==> |Digits(value)| >= 12
    ensures !Blank(FormatPhoneNumber(value))
  {
    FormatIsLayout(value);
    var d := Kept(Digits(value));
    LayoutShape(d);
    var r := FormatPhoneNumber(value);
    assert r[0] == '+';
    if |Digits(value)| >= 12 {
      FormatShape(value);
    }
  }

  /** Formatting twice is formatting once: re-rendering a formatted number leaves it as it is. */
  lemma FormatIdempotent(value: string)
    ensures FormatPhoneNumber(FormatPhoneNumber(value)) == FormatPhoneNumber(value)
  {
    FormatShape(value);
    var d := Kept(Digits(value));
    var r := FormatPhoneNumber(value);
    assert Kept("90" + d) == d;
    FormatIsLayout(value);
    FormatIsLayout(r);
  }

  /** A number already in `+90 DDD DDD DD DD` form is left unchanged. */
  lemma FormatKeepsPattern(s: string)
    requires PhonePattern(s)
    ensures FormatPhoneNumber(s) == s
  {
    var a, b, c, e := s[4..7], s[8..11], s[12..14], s[15..17];
    var d := a + b + c + e;
    assert AllDigits(d) by {
      forall i | 0 <= i < |d| ensures IsDigit(d[i]) {
        var j := if i < 3 then 4 + i else if i < 6 then 5 + i else if i < 8 then 6 + i else 7 + i;
        assert d[i] == s[j];
      }
    }
    assert s == Prefix + (a + (" " + b + (" " + c + (" " + e)))) by {
      assert s[..4] == Prefix && s[7] == ' ' && s[11] == ' ' && s[14] == ' ';
      assert s == s[..4] + (s[4..7] + ([s[7]] + s[8..11] + ([s[11]] + s[12..14] + ([s[14]] + s[15..17]))));
    }
    LayoutCases(d);
    assert d[..3] == a && d[3..6] == b && d[6..8] == c && d[8..] == e;
    DigitsOfGrouped(d, [3, 3, 2]);
    DigitsOfPrefix(Layout(d));
    assert Kept("90" + d) == d;
    FormatIsLayout(s);
  }

  /** Twelve digits `90` + `aaa` + `bbb` + `cc` + `ee` come out as `+90 aaa bbb cc ee`. */
  lemma FormatTwelve(a: string, b: string, c: string, e: string)
    requires |a| == 3 && |b| == 3 && |c| == 2 && |e| == 2
    ensures FormatNumbers("90" + a + b + c + e) == Prefix + (a + (" " + b + (" " + c + (" " + e))))
  {
    var n := "90" + a + b + c + e;
    var d := Kept(n);
    assert d == a + b + c + e;
    NumbersLayout(n);
    LayoutCases(d);
    assert d[..3] == a && d[3..6] == b && d[6..8] == c && d[8..] == e;
  }

  /** The example from the form: twelve typed digits give the full template. */
  lemma FormatExample(typed: string)
    requires typed == "905551234567"
    ensures FormatPhoneNumber(typed) == "+90 555 123 45 67"
  {
    assert AllDigits(typed);
    DigitsOfDigits(typed);
    ExampleLayout(typed);
  }

  lemma ExampleLayout(typed: string)
    requires typed == "905551234567"
    ensures FormatNumbers(typed) == "+90 555 123 45 67"
  {
    assert typed == "90" + "555" + "123" + "45" + "67";
    FormatTwelve("555", "123", "45", "67");
  }
}
