/** The first name shown to petition authors: the first whitespace-delimited
    token of the stored name, found by one left-to-right scan over Unicode
    code points. */
module Names {

  /** White space as JavaScript's `\s` defines it (the WhiteSpace and
      LineTerminator code points of ECMAScript). */
  predicate IsWhitespace(c: char)
  {
    var n := c as int;
    (0x09 <= n <= 0x0D) || n == 0x20 || n == 0xA0 || n == 0x1680
    || (0x2000 <= n <= 0x200A) || n == 0x2028 || n == 0x2029 || n == 0x202F
    || n == 0x205F || n == 0x3000 || n == 0xFEFF
  }

  predicate AllWhitespace(s: string)
  {
    forall i :: 0 <= i < |s| ==> IsWhitespace(s[i])
  }

  predicate NoWhitespace(s: string)
  {
    forall i :: 0 <= i < |s| ==> !IsWhitespace(s[i])
  }

  /** Drops the leading white space. */
  function SkipWhitespace(s: string): (r: string)
    ensures |r| <= |s| && r == s[|s| - |r|..]
    ensures AllWhitespace(s[..|s| - |r|])
    ensures r == [] || !IsWhitespace(r[0])
  {
    if s != [] && IsWhitespace(s[0]) then
      var r := SkipWhitespace(s[1..]);
      assert forall i {:trigger s[..|s| - |r|][i]} :: 0 < i < |s| - |r| ==> s[..|s| - |r|][i] == s[1..][..|s| - 1 - |r|][i - 1];
      r
    else s
  }

  /** The longest prefix without white space. */
  function TakeToken(s: string): (r: string)
    ensures r <= s && NoWhitespace(r)
    ensures |r| == |s| || IsWhitespace(s[|r|])
  {
    if s == [] || IsWhitespace(s[0]) then [] else [s[0]] + TakeToken(s[1..])
  }

  function FirstName(name: string): (r: string)
    ensures |r| <= |name| && r <= SkipWhitespace(name)
  {
    TakeToken(SkipWhitespace(name))
  }

  /** The first name is a white-space-free run of the name that starts after
      nothing but white space and ends at white space or at the end. */
  lemma FirstNameShape(name: string)
    ensures var r := FirstName(name);
            exists k :: 0 <= k && k + |r| <= |name|
                        && AllWhitespace(name[..k])
                        && name[k..k + |r|] == r
                        && (k + |r| == |name| || IsWhitespace(name[k + |r|]))
                        && (k < |name| ==> !IsWhitespace(name[k]))
    ensures NoWhitespace(FirstName(name))
  {
    var rest := SkipWhitespace(name);
    var k := |name| - |rest|;
    var r := TakeToken(rest);
    assert FirstName(name) == r;
    assert rest == name[k..];
    assert r == rest[..|r|];
    assert name[k..k + |r|] == r;
    assert k < |name| ==> name[k] == rest[0];
    assert k + |r| < |name| ==> name[k + |r|] == rest[|r|];
    assert k + |r| == |name| || IsWhitespace(name[k + |r|]);
  }

  /** The first name is empty exactly when the name is blank. */
  lemma FirstNameEmptyIffBlank(name: string)
    ensures FirstName(name) == [] <==> AllWhitespace(name)
  {
    var rest := SkipWhitespace(name);
    if rest != [] {
      assert name[|name| - |rest|] == rest[0];
    } else {
      assert name[..|name|] == name;
    }
  }

  /** A name that is already one token is its own first name. */
  lemma {:induction false} SingleTokenIsItsOwnFirstName(name: string)
    requires NoWhitespace(name)
    ensures FirstName(name) == name
  {
    TakeTokenOfToken(name);
  }

  lemma {:induction false} TakeTokenOfToken(s: string)
    requires NoWhitespace(s)
    ensures TakeToken(s) == s
    decreases |s|
  {
    if s != [] {
      TakeTokenOfToken(s[1..]);
    }
  }

  /** Taking the first name twice changes nothing. */
  lemma FirstNameIdempotent(name: string)
    ensures FirstName(FirstName(name)) == FirstName(name)
  {
    FirstNameShape(name);
    SingleTokenIsItsOwnFirstName(FirstName(name));
  }

  /** Only the first token matters: anything after white space that follows
      it is ignored. */
  lemma TrailingTextIgnored(token: string, ws: char, tail: string)
    requires |token| > 0 && NoWhitespace(token) && IsWhitespace(ws)
    ensures FirstName(token + [ws] + tail) == token
  {
    var s := token + [ws] + tail;
    assert s[0] == token[0];
    assert SkipWhitespace(s) == s;
    TakeTokenStopsAtWhitespace(token, ws, tail);
  }

  lemma {:induction false} TakeTokenStopsAtWhitespace(token: string, ws: char, tail: string)
    requires NoWhitespace(token) && IsWhitespace(ws)
    ensures TakeToken(token + [ws] + tail) == token
    decreases |token|
  {
    var s := token + [ws] + tail;
    if token == [] {
      assert s[0] == ws;
    } else {
      assert s[0] == token[0];
      assert s[1..] == token[1..] + [ws] + tail;
      TakeTokenStopsAtWhitespace(token[1..], ws, tail);
      assert [token[0]] + token[1..] == token;
    }
  }

  /** Leading white space is skipped. */
  lemma LeadingWhitespaceIgnored(ws: string, s: string)
    requires AllWhitespace(ws)
    ensures FirstName(ws + s) == FirstName(s)
  {
    SkipLeadingWhitespace(ws, s);
  }

  lemma {:induction false} SkipLeadingWhitespace(ws: string, s: string)
    requires AllWhitespace(ws)
    ensures SkipWhitespace(ws + s) == SkipWhitespace(s)
    decreases |ws|
  {
    if ws != [] {
      var t := ws + s;
      assert t[0] == ws[0];
      assert t[1..] == ws[1..] + s;
      assert SkipWhitespace(t) == SkipWhitespace(t[1..]);
      SkipLeadingWhitespace(ws[1..], s);
    } else {
      assert ws + s == s;
    }
  }
}
