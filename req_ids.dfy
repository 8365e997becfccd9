/** The display id `create_requirement` gives a new requirement:
    `"REQ-"` followed by one plus the project's requirement count, in
    decimal, left-padded with zeros to at least three digits. */
module ReqIds {
  import opened Records

  predicate IsDigit(c: char)
  {
    '0' <= c <= '9'
  }

  predicate AllDigits(s: string)
  {
    forall i | 0 <= i < |s| :: IsDigit(s[i])
  }

  function DigitChar(d: nat): (c: char)
    requires d < 10
    ensures IsDigit(c)
  {
    ['0', '1', '2', '3', '4', '5', '6', '7', '8', '9'][d]
  }

  function DigitValue(c: char): (d: nat)
    requires IsDigit(c)
    ensures d < 10
  {
    (c as int - '0' as int) as nat
  }

  /** Python's `str(n)` for a natural number. */
  function Decimal(n: nat): (s: string)
    ensures 1 <= |s| && AllDigits(s)
    ensures |s| > 1 ==> s[0] != '0'
  {
    if n < 10 then [DigitChar(n)] else Decimal(n / 10) + [DigitChar(n % 10)]
  }

  /** Reads a string of decimal digits back as a number. */
  function ParseDecimal(s: string): nat
    requires AllDigits(s)
  {
    if s == [] then 0 else 10 * ParseDecimal(s[..|s| - 1]) + DigitValue(s[|s| - 1])
  }

  function Zeros(k: nat): (s: string)
    ensures |s| == k && AllDigits(s)
    ensures forall i | 0 <= i < k :: s[i] == '0'
  {
    if k == 0 then [] else ['0'] + Zeros(k - 1)
  }

  /** Python's `s.zfill(width)` for a string of digits: pad on the left with
      zeros up to the width; a longer string is left alone. */
  function ZFill(s: string, width: nat): (r: string)
    requires AllDigits(s)
    ensures AllDigits(r)
    ensures |r| == if |s| < width then width else |s|
    ensures r[|r| - |s|..] == s
    ensures forall i | 0 <= i < |r| - |s| :: r[i] == '0'
  {
    if |s| < width then Zeros(width - |s|) + s else s
  }

  /** The display id of the requirement created when the project already
      holds `count` requirements. */
  function ReqIdFor(count: nat): (id: string)
    ensures |id| >= 7 && id[..4] == "REQ-" && AllDigits(id[4..])
  {
    "REQ-" + ZFill(Decimal(count + 1), 3)
  }

  /** The number in a display id, when it has the `REQ-` shape. */
  function ReqNumber(id: string): Option<nat>
  {
    if |id| > 4 && id[..4] == "REQ-" && AllDigits(id[4..]) then Some(ParseDecimal(id[4..])) else None
  }

  /** Decimal formatting and parsing are inverse. */
  lemma {:induction false} DecimalRoundTrip(n: nat)
    ensures ParseDecimal(Decimal(n)) == n
  {
    if n >= 10 {
      var s := Decimal(n);
      assert s[..|s| - 1] == Decimal(n / 10);
      DecimalRoundTrip(n / 10);
    }
  }

  /** Leading zeros do not change the value of a digit string. */
  lemma {:induction false} LeadingZeros(k: nat, s: string)
    requires AllDigits(s)
    ensures AllDigits(Zeros(k) + s)
    ensures ParseDecimal(Zeros(k) + s) == ParseDecimal(s)
    decreases |s|, k
  {
    var z := Zeros(k) + s;
    assert AllDigits(z) by {
      forall i | 0 <= i < |z| ensures IsDigit(z[i]) {
        if i >= k { assert z[i] == s[i - k]; }
      }
    }
    if s == [] {
      if k > 0 {
        assert z == Zeros(k - 1) + ['0'];
        assert z[..|z| - 1] == Zeros(k - 1) + [];
        LeadingZeros(k - 1, []);
      }
    } else {
      assert z[..|z| - 1] == Zeros(k) + s[..|s| - 1];
      LeadingZeros(k, s[..|s| - 1]);
    }
  }

  /** The number in a generated display id is one more than the count it was
      made from. */
  lemma ReqIdRoundTrip(count: nat)
    ensures ReqNumber(ReqIdFor(count)) == Some(count + 1)
  {
    var d := Decimal(count + 1);
    var id := ReqIdFor(count);
    assert id[4..] == ZFill(d, 3);
    if |d| < 3 {
      LeadingZeros(3 - |d|, d);
    }
    DecimalRoundTrip(count + 1);
  }

  /** Different counts give different display ids. */
  lemma ReqIdInjective(a: nat, b: nat)
    requires ReqIdFor(a) == ReqIdFor(b)
    ensures a == b
  {
    ReqIdRoundTrip(a);
    ReqIdRoundTrip(b);
  }

  /** The padding examples: the first requirement, and the first one past
      three digits. */
  lemma ReqIdFirst()
    ensures ReqIdFor(0) == "REQ-001"
  {
    assert Decimal(1) == ['1'];
    assert Zeros(2) == "00";
  }

  /** The second requirement of a project gets `REQ-002`. */
  lemma ReqIdSecond()
    ensures ReqIdFor(1) == "REQ-002"
  {
    assert Decimal(2) == ['2'];
    assert Zeros(2) == "00";
  }

  lemma ReqIdFourDigits()
    ensures ReqIdFor(999) == "REQ-1000"
  {
    assert DigitChar(0) == '0';
    assert Decimal(1) == ['1'];
    assert Decimal(10) == Decimal(1) + ['0'];
    assert Decimal(100) == Decimal(10) + ['0'];
    assert Decimal(1000) == Decimal(100) + ['0'];
  }
}
