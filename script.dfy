/**
 * The expressions of the surrounding script: the CSV separator chosen from
 * the locale's decimal mark, the scenarios whose results are loaded, and the
 * decade a year is reported under, computed on the year's decimal text.
 */
module Script {
  import opened Wrappers
  import opened Frames

  /** `CSVSEPARATOR`: ';' when the decimal mark is ',', otherwise ','. */
  function Separator(decimal: char): (r: char)
    ensures r == ';' || r == ','
    ensures r != decimal
    ensures r == ';' <==> decimal == ','
  {
    if decimal == ',' then ';' else ','
  }

  /**
   * `scen_to_load`: every scenario of the scenario sheet, and every
   * reference named in its `refscen` column; an empty cell (`None`, NaN in
   * the sheet, the value for which `s == s` is false) names none.
   */
  function ScenariosToLoad(refscen: map<Label, Option<Label>>): (r: set<Label>)
    ensures forall s :: s in r <==> s in refscen || exists k :: k in refscen && refscen[k] == Some(s)
  {
    refscen.Keys + set k | k in refscen && refscen[k].Some? :: refscen[k].value
  }

  /** With no reference named, only the scenarios themselves are loaded. */
  lemma LoadWithoutReferences(refscen: map<Label, Option<Label>>)
    requires forall k :: k in refscen ==> refscen[k].None?
    ensures ScenariosToLoad(refscen) == refscen.Keys
  {
    assert (set k | k in refscen && refscen[k].Some? :: refscen[k].value) == {};
  }

  // ------------------------------------------------------------------
  // Decimal text of integers: `str` and `int`
  // ------------------------------------------------------------------

  function DigitChar(d: nat): (c: char)
    requires d < 10
    ensures '0' <= c <= '9'
  {
    "0123456789"[d]
  }

  function DigitValue(c: char): (d: nat)
    ensures d < 10
    ensures forall e: nat :: e < 10 && DigitChar(e) == c ==> d == e
  {
    if '0' <= c <= '9' then (c - '0') as nat else 0
  }

  /** The number of decimal digits of `n`. */
  function Digits(n: nat): (d: nat)
    ensures d >= 1
  {
    if n < 10 then 1 else 1 + Digits(n / 10)
  }

  /** `str(n)` for a natural number: its decimal digits, without leading zeros. */
  function ShowNat(n: nat): (s: string)
    ensures |s| == Digits(n)
    ensures forall i :: 0 <= i < |s| ==> '0' <= s[i] <= '9'
    ensures n >= 10 ==> s[0] != '0'
  {
    if n < 10 then [DigitChar(n)] else ShowNat(n / 10) + [DigitChar(n % 10)]
  }

  /** `int(s)` for a string of digits: the value of the digits, most significant first. */
  function ParseNat(s: string): nat {
    if s == [] then 0 else ParseNat(s[..|s| - 1]) * 10 + DigitValue(s[|s| - 1])
  }

  /** `str(i)`: a minus sign in front of a negative number's digits. */
  function Show(i: int): (s: string)
    ensures s != [] && (s[0] == '-' <==> i < 0)
  {
    if i < 0 then "-" + ShowNat(-i) else ShowNat(i)
  }

  /** `int(s)` for an optional minus sign followed by digits. */
  function Parse(s: string): int {
    if s != [] && s[0] == '-' then -(ParseNat(s[1..]) as int) else ParseNat(s)
  }

  /** `s[0:n]`: Python's slice, which stops at the end of a shorter string. */
  function Take(s: string, n: nat): (r: string)
    ensures |r| == if |s| < n then |s| else n
    ensures r == s[..|r|]
  {
    if |s| < n then s else s[..n]
  }

  /** Appending a digit multiplies the value by ten and adds the digit. */
  lemma ParseAppend(s: string, d: nat)
    requires d < 10
    ensures ParseNat(s + [DigitChar(d)]) == ParseNat(s) * 10 + d
  {
    assert (s + [DigitChar(d)])[..|s|] == s;
  }

  /** Reading back the digits of a number gives the number. */
  lemma {:induction false} ParseShowNat(n: nat)
    ensures ParseNat(ShowNat(n)) == n
    decreases n
  {
    if n < 10 {
      assert ParseNat([DigitChar(n)]) == ParseNat([]) * 10 + DigitValue(DigitChar(n));
    } else {
      ParseShowNat(n / 10);
      ParseAppend(ShowNat(n / 10), n % 10);
    }
  }

  /** `int(str(i)) == i` for every integer. */
  lemma ParseShow(i: int)
    ensures Parse(Show(i)) == i
  {
    if i < 0 {
      var n: nat := -i;
      var d := ShowNat(n);
      assert Show(i) == "-" + d;
      assert ("-" + d)[0] == '-' && ("-" + d)[1..] == d;
      ParseShowNat(n);
    } else {
      ParseShowNat(i);
    }
  }

  // ------------------------------------------------------------------
  // The decade rule
  // ------------------------------------------------------------------

  /** `int(str(k-1)[0:3] + '0')`: the first three characters of `k - 1` with a zero appended. */
  function Decade(k: int): int {
    Parse(Take(Show(k - 1), 3) + "0")
  }

  /** The three leading digits of a four-digit number are the number divided by ten. */
  lemma LeadingDigits(n: nat)
    requires 1000 <= n <= 9999
    ensures Take(ShowNat(n), 3) == ShowNat(n / 10)
  {
    assert Digits(n / 10) == 3 by {
      assert 1 <= n / 1000 <= 9 && (n / 100) / 10 == n / 1000 && (n / 10) / 10 == n / 100;
      assert Digits(n / 1000) == 1;
      assert Digits(n / 100) == 1 + Digits(n / 1000);
      assert Digits(n / 10) == 1 + Digits(n / 100);
    }
  }

  /**
   * For a four-digit `k - 1` the rule rounds `k - 1` down to its decade:
   * years 2021 to 2030 belong to the decade 2020.
   */
  lemma DecadeOfYear(k: int)
    requires 1001 <= k <= 10000
    ensures Decade(k) == ((k - 1) / 10) * 10
    ensures (k - 1) % 10 == 0 ==> Decade(k) == k - 1
  {
    var n: nat := k - 1;
    LeadingDigits(n);
    assert Show(k - 1) == ShowNat(n);
    ParseShowNat(n / 10);
    ParseAppend(ShowNat(n / 10), 0);
    assert "0" == [DigitChar(0)];
  }

  /** The years 2021 to 2030 are reported under 2020, and 2031 under 2030. */
  lemma DecadeExample()
    ensures forall k :: 2021 <= k <= 2030 ==> Decade(k) == 2020
    ensures Decade(2031) == 2030
  {
    forall k | 2021 <= k <= 2030 ensures Decade(k) == 2020 {
      DecadeOfYear(k);
      assert (k - 1) / 10 == 202;
    }
    DecadeOfYear(2031);
    assert (2031 - 1) / 10 == 203;
  }

  /**
   * Below four digits the rule appends a zero to the whole of `k - 1`
   * instead of rounding: year 2 is reported under 10, not 0.
   */
  lemma DecadeShortYears(k: int)
    requires 1 <= k <= 1000
    ensures Decade(k) == (k - 1) * 10
  {
    var n: nat := k - 1;
    assert Digits(n) <= 3 by {
      if n >= 100 {
        assert 1 <= n / 100 <= 9 && (n / 10) / 10 == n / 100 && n / 10 >= 10;
        assert Digits(n / 10) == 1 + Digits(n / 100);
      } else if n >= 10 {
        assert Digits(n / 10) == 1;
      }
    }
    assert Show(k - 1) == ShowNat(n);
    assert Take(ShowNat(n), 3) == ShowNat(n);
    ParseShowNat(n);
    ParseAppend(ShowNat(n), 0);
    assert "0" == [DigitChar(0)];
  }
}
