/** The textual layer under a confirmation token.

    The source serialises the token payload with `JSON.stringify` and wraps
    `{d, s}` in base64url. Those byte formats are not part of this model; in
    their place this module defines a concrete, self-delimiting text
    encoding (decimal numerals and length-prefixed fields) with the one
    property the token logic relies on: decoding what was encoded gives the
    same fields back. */
module Wire {
  import opened Optional

  predicate IsDigit(c: char)
  {
    '0' <= c <= '9'
  }

  predicate AllDigits(s: string)
  {
    forall i :: 0 <= i < |s| ==> IsDigit(s[i])
  }

  function DigitChar(d: nat): (c: char)
    requires d < 10
    ensures IsDigit(c) && c as int - '0' as int == d
  {
    ('0' as int + d) as char
  }

  /** Decimal numeral of n, without leading zeros. */
  function NatText(n: nat): (s: string)
    ensures |s| > 0 && AllDigits(s)
    decreases n
  {
    if n < 10 then [DigitChar(n)] else NatText(n / 10) + [DigitChar(n % 10)]
  }

  /** The value of a string of decimal digits (most significant first). */
  function DigitsValue(s: string): nat
    requires AllDigits(s)
  {
    if s == [] then 0
    else DigitsValue(s[..|s| - 1]) * 10 + (s[|s| - 1] as int - '0' as int)
  }

  /** Parses a non-empty numeral made of decimal digits only. */
  function ParseNat(s: string): (r: Option<nat>)
    ensures r.Some? <==> |s| > 0 && AllDigits(s)
  {
    if |s| > 0 && AllDigits(s) then Some(DigitsValue(s)) else None
  }

  lemma {:induction false} NatTextRoundTrip(n: nat)
    ensures ParseNat(NatText(n)) == Some(n)
    decreases n
  {
    if n >= 10 {
      var s := NatText(n);
      NatTextRoundTrip(n / 10);
      assert s[..|s| - 1] == NatText(n / 10);
      assert DigitsValue(s) == DigitsValue(NatText(n / 10)) * 10 + n % 10;
    }
  }

  /** Decimal numeral of an integer, with a leading '-' when negative. */
  function IntText(i: int): string
  {
    if i < 0 then "-" + NatText(-i) else NatText(i)
  }

  function ParseInt(s: string): Option<int>
  {
    if |s| > 0 && s[0] == '-' then
      match ParseNat(s[1..])
      case Some(n) => var v: int := n; Some(-v)
      case None => None
    else
      match ParseNat(s)
      case Some(n) => Some(n)
      case None => None
  }

  lemma IntTextRoundTrip(i: int)
    ensures ParseInt(IntText(i)) == Some(i)
  {
    if i < 0 {
      NatTextRoundTrip(-i);
      assert IntText(i)[1..] == NatText(-i);
    } else {
      NatTextRoundTrip(i);
    }
  }

  /** A length-prefixed field: the length in decimal, a colon, the text. */
  function Field(s: string): string
  {
    NatText(|s|) + ":" + s
  }

  /** Index of the first colon of t, or |t| when there is none. */
  function ColonAt(t: string): (k: nat)
    ensures k <= |t|
    ensures forall i :: 0 <= i < k ==> t[i] != ':'
    ensures k < |t| ==> t[k] == ':'
  {
    if t == [] || t[0] == ':' then 0 else 1 + ColonAt(t[1..])
  }

  /** Reads one field from the front of t; gives the field and what follows. */
  function ParseField(t: string): Option<(string, string)>
  {
    var k := ColonAt(t);
    if k == |t| then None
    else
      match ParseNat(t[..k])
      case None => None
      case Some(n) =>
        if k + 1 + n <= |t| then Some((t[k + 1..k + 1 + n], t[k + 1 + n..])) else None
  }

  lemma FieldRoundTrip(s: string, rest: string)
    ensures ParseField(Field(s) + rest) == Some((s, rest))
  {
    var d := NatText(|s|);
    var t := Field(s) + rest;
    assert t == d + ":" + s + rest;
    assert t[|d|] == ':';
    assert forall i :: 0 <= i < |d| ==> t[i] == d[i] && IsDigit(t[i]);
    var k := ColonAt(t);
    assert k == |d|;
    assert t[..k] == d;
    NatTextRoundTrip(|s|);
    assert t[k + 1..k + 1 + |s|] == s;
    assert t[k + 1 + |s|..] == rest;
  }

  /** A sequence of fields, each length-prefixed, concatenated. */
  function EncodeFields(fs: seq<string>): string
  {
    if fs == [] then "" else Field(fs[0]) + EncodeFields(fs[1..])
  }

  /** Reads exactly n fields and requires that nothing follows them. */
  function DecodeFields(t: string, n: nat): Option<seq<string>>
    decreases n
  {
    if n == 0 then
      if t == "" then Some([]) else None
    else
      match ParseField(t)
      case None => None
      case Some((f, rest)) =>
        match DecodeFields(rest, n - 1)
        case None => None
        case Some(fs) => Some([f] + fs)
  }

  lemma {:induction false} FieldsRoundTrip(fs: seq<string>)
    ensures DecodeFields(EncodeFields(fs), |fs|) == Some(fs)
    decreases |fs|
  {
    if fs != [] {
      var head, tail := fs[0], fs[1..];
      var rest := EncodeFields(tail);
      var t := EncodeFields(fs);
      assert t == Field(head) + rest;
      FieldRoundTrip(head, rest);
      FieldsRoundTrip(tail);
      DecodeFieldsStep(t, |tail|, head, rest, tail);
      assert [head] + tail == fs;
    }
  }

  /** One unfolding of DecodeFields: a field in front of n decodable fields. */
  lemma DecodeFieldsStep(t: string, n: nat, f: string, rest: string, fs: seq<string>)
    requires ParseField(t) == Some((f, rest))
    requires DecodeFields(rest, n) == Some(fs)
    ensures DecodeFields(t, n + 1) == Some([f] + fs)
  {
  }

  lemma {:induction false} EncodeFieldsAppend(fs: seq<string>, gs: seq<string>)
    ensures EncodeFields(fs + gs) == EncodeFields(fs) + EncodeFields(gs)
    decreases |fs|
  {
    if fs != [] {
      assert (fs + gs)[1..] == fs[1..] + gs;
      EncodeFieldsAppend(fs[1..], gs);
    } else {
      assert fs + gs == gs;
    }
  }
}
