/**
 * The `{:,d}` format of the status message (app.py:198): a decimal integer
 * with a comma between every group of three digits, counted from the right.
 */
module Format {

  predicate IsDigit(c: char) {
    '0' <= c <= '9'
  }

  predicate IsDigits(s: string) {
    forall i :: 0 <= i < |s| ==> IsDigit(s[i])
  }

  function DigitChar(d: nat): (c: char)
    requires d < 10
    ensures IsDigit(c)
  {
    ('0' as int + d) as char
  }

  function DigitValue(c: char): (d: nat)
    requires IsDigit(c)
    ensures d < 10 && DigitChar(d) == c
  {
    c as int - '0' as int
  }

  /** The decimal digits of `n`, most significant first, without leading zeros. */
  function Digits(n: nat): (s: string)
    ensures s != [] && IsDigits(s)
    ensures |s| > 1 ==> s[0] != '0'
  {
    if n < 10 then [DigitChar(n)]
    else
      var s := Digits(n / 10) + [DigitChar(n % 10)];
      assert s[0] == Digits(n / 10)[0];
      s
  }

  /** The number a string of decimal digits denotes. */
  function ValueOf(s: string): nat
    requires IsDigits(s)
  {
    if s == [] then 0 else 10 * ValueOf(s[..|s| - 1]) + DigitValue(s[|s| - 1])
  }

  /** Reading the digits back gives the number. */
  lemma {:induction false} DigitsRoundTrip(n: nat)
    ensures ValueOf(Digits(n)) == n
  {
    if n >= 10 {
      var s := Digits(n);
      assert s[..|s| - 1] == Digits(n / 10);
      DigitsRoundTrip(n / 10);
    }
  }

  /** Commas between groups of three digits, counted from the right. */
  function Group(s: string): string
    decreases |s|
  {
    if |s| <= 3 then s else Group(s[..|s| - 3]) + "," + s[|s| - 3..]
  }

  /** `s` without its commas. */
  function Uncomma(s: string): (r: string)
    ensures |r| <= |s|
  {
    if s == [] then [] else (if s[0] == ',' then [] else [s[0]]) + Uncomma(s[1..])
  }

  lemma {:induction false} UncommaConcat(a: string, b: string)
    ensures Uncomma(a + b) == Uncomma(a) + Uncomma(b)
  {
    if a != [] {
      assert (a + b)[1..] == a[1..] + b;
      UncommaConcat(a[1..], b);
    } else {
      assert a + b == b;
    }
  }

  lemma {:induction false} UncommaDigits(s: string)
    requires IsDigits(s)
    ensures Uncomma(s) == s
  {
    if s != [] {
      UncommaDigits(s[1..]);
    }
  }

  /** Dropping the commas of a grouped number gives its digits back. */
  lemma {:induction false} UncommaGroup(s: string)
    requires IsDigits(s)
    ensures Uncomma(Group(s)) == s
    decreases |s|
  {
    if |s| <= 3 {
      UncommaDigits(s);
    } else {
      var p, q := s[..|s| - 3], s[|s| - 3..];
      UncommaGroup(p);
      UncommaConcat(Group(p) + ",", q);
      UncommaConcat(Group(p), ",");
      UncommaDigits(q);
      assert p + q == s;
    }
  }

  /** The comma at `i` is followed by exactly three digits and then a comma or the end. */
  predicate GroupAfter(g: string, i: nat)
    requires i < |g|
  {
    i + 4 <= |g| && IsDigits(g[i + 1..i + 4]) && (i + 4 == |g| || g[i + 4] == ',')
  }

  /** Every comma of a grouped number is followed by exactly three digits. */
  lemma {:induction false} GroupCommas(s: string)
    requires IsDigits(s)
    ensures forall i :: 0 <= i < |Group(s)| && Group(s)[i] == ',' ==> GroupAfter(Group(s), i)
    decreases |s|
  {
    if |s| > 3 {
      var p, q := s[..|s| - 3], s[|s| - 3..];
      GroupCommas(p);
      var gp := Group(p);
      var g := gp + "," + q;
      assert g == Group(s);
      forall i | 0 <= i < |g| && g[i] == ','
        ensures GroupAfter(g, i)
      {
        if i < |gp| {
          assert gp[i] == ',' && GroupAfter(gp, i);
          assert g[i + 1..i + 4] == gp[i + 1..i + 4];
          if i + 4 == |gp| {
            assert g[i + 4] == ',';
          } else {
            assert g[i + 4] == gp[i + 4];
          }
        } else {
          assert i == |gp|;
          assert forall j :: 0 <= j < |q| ==> q[j] == s[|s| - 3 + j];
          assert g[i + 1..i + 4] == q;
        }
      }
    }
  }

  /** The first group of a grouped number has one to three digits. */
  lemma {:induction false} GroupFirst(s: string)
    requires IsDigits(s) && s != []
    ensures exists k ::
      && 1 <= k <= 3 && k <= |Group(s)| && IsDigits(Group(s)[..k])
      && (k == |Group(s)| || Group(s)[k] == ',')
    decreases |s|
  {
    if |s| <= 3 {
      assert Group(s)[..|s|] == s;
    } else {
      var p := s[..|s| - 3];
      GroupFirst(p);
      var gp := Group(p);
      var g := Group(s);
      assert g == gp + "," + s[|s| - 3..];
      var k :| 1 <= k <= 3 && k <= |gp| && IsDigits(gp[..k]) && (k == |gp| || gp[k] == ',');
      assert g[..k] == gp[..k];
      assert g[k] == ',';
    }
  }

  /** `"{:,d}".format(n)`. */
  function Thousands(n: int): string {
    if n < 0 then "-" + Group(Digits(-n)) else Group(Digits(n))
  }

  /** The integer an optional minus sign followed by digits denotes. */
  function ValueOfSigned(s: string): int
    requires s != [] && (IsDigit(s[0]) || s[0] == '-') && IsDigits(s[1..])
  {
    var magnitude: int := if s[0] == '-' then ValueOf(s[1..]) else ValueOf(s);
    if s[0] == '-' then -magnitude else magnitude
  }

  /** Reading the formatted number without its commas gives the number back. */
  lemma ThousandsRoundTrip(n: int)
    ensures var u := Uncomma(Thousands(n));
      && u != [] && (IsDigit(u[0]) || u[0] == '-') && IsDigits(u[1..])
      && ValueOfSigned(u) == n
  {
    var a := if n < 0 then -n else n;
    var ds := Digits(a);
    UncommaGroup(ds);
    DigitsRoundTrip(a);
    if n < 0 {
      UncommaConcat("-", Group(ds));
      assert Uncomma("-") == "-";
      var u := Uncomma(Thousands(n));
      assert u == "-" + ds;
      assert u[1..] == ds;
      if a == 0 {
        assert false;
      }
    } else {
      assert ds == ds[..1] + ds[1..];
    }
  }
}
