/** The string operations the dashboard uses: `toLowerCase`, `includes`, and
    the decimal text of an integer (`String(n)`) or of a number of tenths
    (`toFixed(1)`). Text is `seq<char>`; case folding covers ASCII letters. */
module Text {

  function ToLower(c: char): char
  {
    if 'A' <= c <= 'Z' then (c as int + 32) as char else c
  }

  /** `s.toLowerCase()` */
  function Lower(s: string): (r: string)
    ensures |r| == |s|
    ensures forall i :: 0 <= i < |s| ==> r[i] == ToLower(s[i])
  {
    if s == [] then [] else [ToLower(s[0])] + Lower(s[1..])
  }

  lemma {:induction false} LowerIdempotent(s: string)
    ensures Lower(Lower(s)) == Lower(s)
  {
    var l := Lower(s);
    assert forall i :: 0 <= i < |l| ==> ToLower(l[i]) == l[i];
  }

  /** `s.includes(sub)`: `sub` occurs in `s` at some position. */
  function Contains(s: string, sub: string): bool
    decreases |s|
  {
    if |sub| > |s| then false
    else if s[..|sub|] == sub then true
    else Contains(s[1..], sub)
  }

  /** `sub` stands in `s` at position `i`. */
  predicate OccursAt(s: string, sub: string, i: int)
  {
    0 <= i <= |s| - |sub| && s[i..i + |sub|] == sub
  }

  lemma {:induction false} ContainsIff(s: string, sub: string)
    ensures Contains(s, sub) <==> exists i :: OccursAt(s, sub, i)
    decreases |s|
  {
    if |sub| > |s| {
    } else if s[..|sub|] == sub {
      assert OccursAt(s, sub, 0);
    } else {
      ContainsIff(s[1..], sub);
      if Contains(s[1..], sub) {
        var i :| OccursAt(s[1..], sub, i);
        assert s[i + 1..i + 1 + |sub|] == s[1..][i..i + |sub|];
        assert OccursAt(s, sub, i + 1);
      }
      if exists i :: OccursAt(s, sub, i) {
        var i :| OccursAt(s, sub, i);
        assert i != 0;
        assert s[1..][i - 1..i - 1 + |sub|] == s[i..i + |sub|];
        assert OccursAt(s[1..], sub, i - 1);
      }
    }
  }

  /** Every string includes the empty string. */
  lemma ContainsEmpty(s: string)
    ensures Contains(s, "")
  {
    assert s[..0] == "";
  }

  predicate IsDigit(c: char) { '0' <= c <= '9' }

  function DigitChar(d: nat): (c: char)
    requires d < 10
    ensures IsDigit(c)
  {
    ('0' as int + d) as char
  }

  function DigitValue(c: char): (d: nat)
    requires IsDigit(c)
    ensures d < 10
  {
    c as int - '0' as int
  }

  predicate AllDigits(s: string)
  {
    forall i :: 0 <= i < |s| ==> IsDigit(s[i])
  }

  /** Decimal text of a natural number, without leading zeros. */
  function NatText(n: nat): (r: string)
    ensures |r| >= 1 && AllDigits(r)
  {
    if n < 10 then [DigitChar(n)] else NatText(n / 10) + [DigitChar(n % 10)]
  }

  function ParseNat(s: string): nat
    requires AllDigits(s)
  {
    if s == [] then 0 else ParseNat(s[..|s| - 1]) * 10 + DigitValue(s[|s| - 1])
  }

  lemma {:induction false} ParseNatText(n: nat)
    ensures ParseNat(NatText(n)) == n
  {
    if n >= 10 {
      var r := NatText(n);
      assert r[..|r| - 1] == NatText(n / 10);
      ParseNatText(n / 10);
    }
  }

  /** `String(i)` for an integer `i`. */
  function IntText(i: int): (r: string)
    ensures |r| >= 1
    ensures r[0] == '-' <==> i < 0
    ensures IsDigit(r[0]) <==> i >= 0
  {
    if i < 0 then "-" + NatText(-i) else NatText(i)
  }

  /** `(t / 10).toFixed(1)` for `t` tenths: sign, whole part, point, one digit. */
  function TenthsText(t: int): (r: string)
    ensures |r| >= 3
    ensures r[0] == '-' <==> t < 0
    ensures IsDigit(r[0]) <==> t >= 0
  {
    var m := if t < 0 then -t else t;
    (if t < 0 then "-" else "") + NatText(m / 10) + "." + [DigitChar(m % 10)]
  }

  /** Reads back the text of a signed integer, with an optional `+` or `-`. */
  function ParseSigned(s: string): int
    requires |s| >= 1
    requires AllDigits(s[1..]) && (IsDigit(s[0]) || s[0] == '+' || s[0] == '-')
  {
    var digits := if IsDigit(s[0]) then s else s[1..];
    var n: int := ParseNat(digits);
    if s[0] == '-' then -n else n
  }

  /** The body of a `toFixed(1)` text: digits, a point, one digit. */
  predicate IsFixedOne(s: string)
  {
    |s| >= 3 && s[|s| - 2] == '.' && AllDigits(s[..|s| - 2]) && IsDigit(s[|s| - 1])
  }

  /** Reads back tenths from a `toFixed(1)` text with an optional sign. */
  function ParseSignedTenths(s: string): int
    requires |s| >= 1
    requires (s[0] == '+' || s[0] == '-') ==> IsFixedOne(s[1..])
    requires !(s[0] == '+' || s[0] == '-') ==> IsFixedOne(s)
  {
    var body := if s[0] == '+' || s[0] == '-' then s[1..] else s;
    var m: int := ParseNat(body[..|body| - 2]) * 10 + DigitValue(body[|body| - 1]);
    if s[0] == '-' then -m else m
  }

  lemma IntTextRoundTrip(i: int)
    ensures var s := IntText(i); AllDigits(s[1..]) && ParseSigned(s) == i
  {
    ParseNatText(if i < 0 then -i else i);
    if i < 0 {
      assert IntText(i)[1..] == NatText(-i);
    } else {
      var s := NatText(i);
      assert AllDigits(s[1..]) by {
        forall k | 0 <= k < |s[1..]| ensures IsDigit(s[1..][k]) {
          assert s[1..][k] == s[k + 1];
        }
      }
    }
  }

  lemma TenthsTextRoundTrip(t: int)
    ensures var s := TenthsText(t);
      && (s[0] == '-' ==> IsFixedOne(s[1..]))
      && (s[0] != '-' ==> IsFixedOne(s))
      && ParseSignedTenths(s) == t
  {
    var m := if t < 0 then -t else t;
    var body := NatText(m / 10) + "." + [DigitChar(m % 10)];
    assert body[..|body| - 2] == NatText(m / 10);
    ParseNatText(m / 10);
    assert DigitValue(body[|body| - 1]) == m % 10;
    assert IsFixedOne(body);
    if t < 0 {
      assert TenthsText(t) == "-" + body;
      assert TenthsText(t)[1..] == body;
    } else {
      assert TenthsText(t) == body;
    }
  }
}
