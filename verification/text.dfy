/** The two string comparisons the playlist lookup relies on, over ASCII:
    JavaScript's loose equality between an option string and a numeric key,
    modelled as "the string spells that integer in decimal", and
    `toLowerCase`, modelled on the letters A-Z. */
module Text {
  import opened Rows

  predicate IsDigit(c: char) {
    '0' <= c <= '9'
  }

  predicate AllDigits(s: string) {
    forall i :: 0 <= i < |s| ==> IsDigit(s[i])
  }

  /** The value of a run of decimal digits, most significant first. */
  function DigitsValue(s: string): nat
    requires AllDigits(s)
  {
    if |s| == 0 then 0
    else DigitsValue(s[..|s| - 1]) * 10 + (s[|s| - 1] as int - '0' as int)
  }

  /** `s` is an optional sign followed by at least one decimal digit. */
  predicate IsNumeral(s: string) {
    && |s| > 0
    && (IsDigit(s[0]) || ((s[0] == '-' || s[0] == '+') && |s| > 1))
    && forall i :: 1 <= i < |s| ==> IsDigit(s[i])
  }

  /** The integer a string spells: an optional sign followed by at least one
      decimal digit. Anything else spells no integer. */
  function ParseInt(s: string): (r: Option<int>)
    // Only an optional sign followed by at least one digit spells an integer,
    // and every such string spells one.
    ensures r.Some? <==> IsNumeral(s)
    ensures r.Some? && (IsDigit(s[0]) || s[0] == '+') ==> r.value >= 0
    ensures r.Some? && s[0] == '-' ==> r.value <= 0
  {
    if |s| > 0 && (s[0] == '-' || s[0] == '+') then
      var ds := s[1..];
      if |ds| > 0 && AllDigits(ds) then
        var v: int := DigitsValue(ds);
        Some(if s[0] == '-' then -v else v)
      else None
    else if |s| > 0 && AllDigits(s) then Some(DigitsValue(s))
    else None
  }

  /** The decimal digits of `n`, without leading zeros. */
  function Digits(n: nat): (r: string)
    ensures |r| > 0 && AllDigits(r)
  {
    var d := ['0' + (n % 10) as char];
    if n < 10 then d else Digits(n / 10) + d
  }

  /** How the JavaScript runtime writes an integer key as text. */
  function ShowInt(k: int): string {
    if k < 0 then "-" + Digits(-k) else Digits(k)
  }

  lemma {:induction false} DigitsValueOfDigits(n: nat)
    ensures DigitsValue(Digits(n)) == n
  {
    var d := ['0' + (n % 10) as char];
    if n >= 10 {
      DigitsValueOfDigits(n / 10);
      var s := Digits(n / 10) + d;
      assert s[..|s| - 1] == Digits(n / 10);
    }
  }

  /** Reading back the text of a key gives the key: an option that spells a
      key is loosely equal to it. */
  lemma ParseShowInt(k: int)
    ensures ParseInt(ShowInt(k)) == Some(k)
  {
    if k < 0 {
      DigitsValueOfDigits(-k);
      assert ("-" + Digits(-k))[1..] == Digits(-k);
    } else {
      DigitsValueOfDigits(k);
    }
  }

  /** A digit run without a leading zero is positive. */
  lemma {:induction false} DigitsValuePositive(s: string)
    requires |s| > 0 && AllDigits(s) && s[0] != '0'
    ensures DigitsValue(s) > 0
  {
    if |s| > 1 {
      var init := s[..|s| - 1];
      assert init[0] == s[0];
      DigitsValuePositive(init);
    }
  }

  /** A digit run without leading zeros is the text of its own value. */
  lemma {:induction false} DigitsOfDigitsValue(s: string)
    requires |s| > 0 && AllDigits(s) && (|s| == 1 || s[0] != '0')
    ensures Digits(DigitsValue(s)) == s
  {
    var n := DigitsValue(s);
    var last := s[|s| - 1];
    var d := last as int - '0' as int;
    assert 0 <= d < 10;
    assert '0' + d as char == last;
    if |s| == 1 {
      assert n == d && n % 10 == d && n < 10;
      assert Digits(n) == ['0' + (n % 10) as char];
    } else {
      var init := s[..|s| - 1];
      assert init[0] == s[0];
      var m := DigitsValue(init);
      assert n == m * 10 + d;
      DigitsValuePositive(init);
      DigitsOfDigitsValue(init);
      assert n / 10 == m && n % 10 == d;
      assert Digits(n) == Digits(m) + ['0' + (n % 10) as char];
      assert s == init + [last];
    }
  }

  /** The text the runtime itself writes for an integer: no `+`, no leading
      zero, no `-0`. */
  predicate IsCanonical(s: string) {
    var ds := if |s| > 0 && s[0] == '-' then s[1..] else s;
    && |ds| > 0
    && (|s| == 0 || s[0] != '+')
    && (|ds| == 1 || ds[0] != '0')
    && s != "-0"
  }

  /** Conversely, a canonical numeral is exactly the text of the integer it
      spells. */
  lemma ParseCanonical(s: string, k: int)
    requires ParseInt(s) == Some(k) && IsCanonical(s)
    ensures s == ShowInt(k)
  {
    if s[0] == '-' {
      var ds := s[1..];
      DigitsOfDigitsValue(ds);
      DigitsValuePositive(ds);
      assert s == "-" + ds;
    } else {
      DigitsOfDigitsValue(s);
    }
  }

  /** A leading zero does not change the value of a digit run. */
  lemma {:induction false} DigitsValueLeadingZero(ds: string)
    requires AllDigits(ds)
    ensures AllDigits("0" + ds) && DigitsValue("0" + ds) == DigitsValue(ds)
  {
    var z := "0" + ds;
    if |ds| > 0 {
      var init := ds[..|ds| - 1];
      assert z[..|z| - 1] == "0" + init;
      assert z[|z| - 1] == ds[|ds| - 1];
      DigitsValueLeadingZero(init);
    }
  }

  /** A `+` sign spells the same integer as the digits without it. */
  lemma ParsePlus(ds: string)
    requires |ds| > 0 && AllDigits(ds)
    ensures ParseInt("+" + ds) == ParseInt(ds)
  {
    assert ("+" + ds)[1..] == ds;
  }

  /** A leading zero spells the same integer as the digits without it. */
  lemma ParseLeadingZero(ds: string)
    requires |ds| > 0 && AllDigits(ds)
    ensures ParseInt("0" + ds) == ParseInt(ds)
  {
    DigitsValueLeadingZero(ds);
  }

  /** A `-` sign spells the negation of what the digits alone spell; with the
      lemmas around it this fixes the value of every numeral, `-0` included. */
  lemma ParseNeg(ds: string)
    requires |ds| > 0 && AllDigits(ds)
    ensures ParseInt(ds).Some? && ParseInt("-" + ds) == Some(-ParseInt(ds).value)
  {
    assert ("-" + ds)[1..] == ds;
  }

  /** Likewise behind a `-` sign. */
  lemma ParseNegLeadingZero(ds: string)
    requires |ds| > 0 && AllDigits(ds)
    ensures ParseInt("-0" + ds) == ParseInt("-" + ds)
  {
    DigitsValueLeadingZero(ds);
    assert ("-0" + ds)[1..] == "0" + ds;
    assert ("-" + ds)[1..] == ds;
  }

  /** JavaScript `option == key` for a string option and an integer key. */
  predicate LooselyEquals(option: string, key: int) {
    ParseInt(option) == Some(key)
  }

  predicate IsUpper(c: char) {
    'A' <= c <= 'Z'
  }

  function LowerChar(c: char): char {
    if IsUpper(c) then c - 'A' + 'a' else c
  }

  /** `s.toLowerCase()`, on ASCII letters. */
  function Lower(s: string): (r: string)
    ensures |r| == |s|
    ensures forall i :: 0 <= i < |s| ==> !IsUpper(r[i])
    ensures forall i :: 0 <= i < |s| && !IsUpper(s[i]) ==> r[i] == s[i]
    // An upper-case letter becomes its lower-case partner, which lies the
    // fixed distance from 'A' to 'a' further on.
    ensures forall i :: 0 <= i < |s| && IsUpper(s[i]) ==>
              'a' <= r[i] <= 'z' && r[i] as int - s[i] as int == 'a' as int - 'A' as int
  {
    if |s| == 0 then "" else [LowerChar(s[0])] + Lower(s[1..])
  }

  /** Lower-casing twice is lower-casing once. */
  lemma LowerIdempotent(s: string)
    ensures Lower(Lower(s)) == Lower(s)
  {
    var l := Lower(s);
    assert forall i :: 0 <= i < |l| ==> Lower(l)[i] == l[i];
  }

  /** `a.toLowerCase() === b.toLowerCase()`. */
  predicate SameIgnoringCase(a: string, b: string) {
    Lower(a) == Lower(b)
  }
}
