/**
 * The string operations the calorie service relies on: trimming, splitting on
 * the space character, joining, Swift's `Int(String)` and `String(Int)`, and
 * the case-insensitive comparison of titles.
 *
 * Characters are Unicode scalar values, one per `char`.
 */
module Text {
  import opened Wrappers

  // ---------------------------------------------------------------- trimming

  /**
   * Membership in Foundation's `whitespacesAndNewlines`: the Unicode
   * separators (categories Zs, Zl, Zp), U+0009 to U+000D and U+0085.
   */
  predicate IsWhitespace(c: char)
  {
    var n := c as int;
    (9 <= n <= 13) || n == 0x20 || n == 0x85 || n == 0xA0 || n == 0x1680
    || (0x2000 <= n <= 0x200A) || n == 0x2028 || n == 0x2029
    || n == 0x202F || n == 0x205F || n == 0x3000
  }

  /** Every character of `s` is whitespace (true of the empty string). */
  predicate IsBlank(s: string)
  {
    forall i :: 0 <= i < |s| ==> IsWhitespace(s[i])
  }

  /** `s` without its leading whitespace. */
  function TrimStart(s: string): string
  {
    if s != [] && IsWhitespace(s[0]) then TrimStart(s[1..]) else s
  }

  /** What TrimStart drops is a blank prefix, and what it keeps starts with a non-space. */
  lemma {:induction false} TrimStartShape(s: string)
    ensures var r := TrimStart(s);
      && |r| <= |s| && r == s[|s| - |r|..]
      && IsBlank(s[..|s| - |r|])
      && (r == [] || !IsWhitespace(r[0]))
  {
    if s != [] && IsWhitespace(s[0]) {
      TrimStartShape(s[1..]);
      var r := TrimStart(s);
      assert s[1..][|s| - 1 - |r|..] == s[|s| - |r|..];
    }
  }

  /** `s` without its trailing whitespace. */
  function TrimEnd(s: string): string
  {
    if s != [] && IsWhitespace(s[|s| - 1]) then TrimEnd(s[..|s| - 1]) else s
  }

  /** What TrimEnd drops is a blank suffix, and what it keeps ends with a non-space. */
  lemma {:induction false} TrimEndShape(s: string)
    ensures var r := TrimEnd(s);
      && |r| <= |s| && r == s[..|r|]
      && IsBlank(s[|r|..])
      && (r == [] || !IsWhitespace(r[|r| - 1]))
  {
    if s != [] && IsWhitespace(s[|s| - 1]) {
      TrimEndShape(s[..|s| - 1]);
      var r := TrimEnd(s);
      assert s[..|s| - 1][..|r|] == s[..|r|];
      assert forall i :: 0 <= i < |s| - 1 - |r| ==> s[|r|..][i] == s[..|s| - 1][|r|..][i];
    }
  }

  /** `s` without its leading and trailing whitespace and newlines. */
  function Trim(s: string): (r: string)
    ensures r == [] <==> IsBlank(s)
    ensures r != [] ==> !IsWhitespace(r[0]) && !IsWhitespace(r[|r| - 1])
  {
    TrimShape(s);
    TrimEnd(TrimStart(s))
  }

  lemma TrimShape(s: string)
    ensures var r := TrimEnd(TrimStart(s));
      && (r == [] <==> IsBlank(s))
      && (r != [] ==> !IsWhitespace(r[0]) && !IsWhitespace(r[|r| - 1]))
  {
    var t := TrimStart(s);
    var r := TrimEnd(t);
    TrimStartShape(s);
    TrimEndShape(t);
    if r == [] {
      assert IsBlank(t[|r|..]);
      assert t[|r|..] == t;
      assert s == s[..|s| - |t|] + t;
    } else {
      assert s[|s| - |t|] == t[0] == r[0];
    }
  }

  // ------------------------------------------------- splitting and joining

  /** A piece that splitting on spaces can produce: non-empty, no space. */
  predicate IsToken(t: string)
  {
    t != [] && ' ' !in t
  }

  /** Every element of `ts` is a token. */
  predicate AllTokens(ts: seq<string>)
  {
    forall i :: 0 <= i < |ts| ==> IsToken(ts[i])
  }

  /** The length of the run of non-space characters that starts `s`. */
  function TokenEnd(s: string): (k: nat)
    ensures k <= |s|
    ensures forall i :: 0 <= i < k ==> s[i] != ' '
    ensures k < |s| ==> s[k] == ' '
  {
    if s == [] || s[0] == ' ' then 0 else 1 + TokenEnd(s[1..])
  }

  /**
   * Splitting on the space character with empty pieces omitted: the maximal
   * runs of non-space characters, in order.
   */
  function Split(s: string): (r: seq<string>)
    ensures AllTokens(r)
    decreases |s|
  {
    if s == [] then []
    else if s[0] == ' ' then Split(s[1..])
    else
      var k := TokenEnd(s);
      [s[..k]] + Split(s[k..])
  }

  /** The tokens with one space between neighbours. */
  function Join(ts: seq<string>): string
  {
    if |ts| == 0 then ""
    else if |ts| == 1 then ts[0]
    else ts[0] + " " + Join(ts[1..])
  }

  /** No leading, trailing or doubled space. */
  predicate WellSpaced(s: string)
  {
    (s != [] ==> s[0] != ' ' && s[|s| - 1] != ' ')
    && forall i :: 0 <= i < |s| - 1 && s[i] == ' ' ==> s[i + 1] != ' '
  }

  /** Joining tokens gives a well-spaced string, non-empty when there is a token. */
  lemma {:induction false} JoinWellSpaced(ts: seq<string>)
    requires AllTokens(ts)
    ensures WellSpaced(Join(ts))
    ensures |ts| > 0 ==> Join(ts) != []
  {
    if |ts| >= 2 {
      var rest := Join(ts[1..]);
      JoinWellSpaced(ts[1..]);
      var s := ts[0] + " " + rest;
      assert Join(ts) == s;
      var n := |ts[0]|;
      assert forall i :: 0 <= i < n ==> s[i] == ts[0][i] && ts[0][i] in ts[0];
      forall i | n <= i < |s| - 1 && s[i] == ' '
        ensures s[i + 1] != ' '
      {
        if i == n {
          assert s[i + 1] == rest[0];
        } else {
          assert s[i] == rest[i - n - 1] && s[i + 1] == rest[i - n];
        }
      }
      assert s[0] == ts[0][0];
      assert s[|s| - 1] == rest[|rest| - 1];
    } else if |ts| == 1 {
      assert Join(ts) == ts[0];
      assert IsToken(ts[0]);
    }
  }

  /** A lone token splits into itself. */
  lemma SplitToken(t: string)
    requires IsToken(t)
    ensures Split(t) == [t]
  {
    TokenEndOfToken(t, "");
    assert t + "" == t;
    assert t[0] in t;
    assert t[|t|..] == [];
  }

  /** A token followed by one space splits off as the first piece. */
  lemma SplitCons(t: string, rest: string)
    requires IsToken(t)
    ensures Split(t + " " + rest) == [t] + Split(rest)
  {
    var s := t + " " + rest;
    assert s == t + (" " + rest);
    TokenEndOfToken(t, " " + rest);
    assert s[0] == t[0] && t[0] in t;
    assert s[..|t|] == t;
    assert s[|t|..] == " " + rest;
    assert (" " + rest)[1..] == rest;
  }

  /** A leading space produces no piece: empty pieces are omitted. */
  lemma SplitSpace(s: string)
    ensures Split(" " + s) == Split(s)
  {
    assert (" " + s)[1..] == s;
  }

  /** Joining then splitting gives the tokens back. */
  lemma {:induction false} SplitJoin(ts: seq<string>)
    requires AllTokens(ts)
    ensures Split(Join(ts)) == ts
  {
    if |ts| == 1 {
      assert IsToken(ts[0]);
      SplitToken(ts[0]);
    } else if |ts| >= 2 {
      assert IsToken(ts[0]);
      SplitCons(ts[0], Join(ts[1..]));
      SplitJoin(ts[1..]);
      assert ts == [ts[0]] + ts[1..];
    }
  }

  /** Appending a token to a non-empty list of tokens appends it after one space. */
  lemma {:induction false} JoinSnoc(ts: seq<string>, t: string)
    requires |ts| > 0
    ensures Join(ts + [t]) == Join(ts) + " " + t
  {
    if |ts| > 1 {
      assert (ts + [t])[1..] == ts[1..] + [t];
      JoinSnoc(ts[1..], t);
    }
  }

  /** A line of two tokens separated by one space splits into those two tokens. */
  lemma SplitTwoTokens(a: string, b: string)
    requires IsToken(a) && IsToken(b)
    ensures Split(a + " " + b) == [a, b]
  {
    SplitCons(a, b);
    SplitToken(b);
  }

  /** The first token of a token followed by anything that starts with a space, or by nothing. */
  lemma TokenEndOfToken(t: string, u: string)
    requires IsToken(t)
    requires u == [] || u[0] == ' '
    ensures TokenEnd(t + u) == |t|
  {
    var s := t + u;
    assert forall i :: 0 <= i < |t| ==> s[i] == t[i] && t[i] in t;
    assert u != [] ==> s[|t|] == u[0];
  }

  /** Splitting then joining gives back any well-spaced string. */
  lemma {:induction false} JoinSplit(s: string)
    requires WellSpaced(s)
    ensures Join(Split(s)) == s
    decreases |s|
  {
    if s != [] {
      var k := TokenEnd(s);
      var t := s[..k];
      assert IsToken(t) by {
        assert k > 0;
        assert forall i :: 0 <= i < k ==> t[i] == s[i];
      }
      if k == |s| {
        assert t == s;
        SplitToken(t);
      } else {
        var u := s[k + 1..];
        assert s == t + " " + u;
        assert WellSpaced(u) by {
          assert u != [] && u[0] == s[k + 1];
          forall i | 0 <= i < |u| - 1 && u[i] == ' '
            ensures u[i + 1] != ' '
          {
            assert u[i] == s[k + 1 + i] && u[i + 1] == s[k + 2 + i];
          }
          assert u[|u| - 1] == s[|s| - 1];
        }
        SplitCons(t, u);
        JoinSplit(u);
        var rest := Split(u);
        assert rest != [] by { assert Join([]) == ""; }
        assert ([t] + rest)[1..] == rest;
      }
    }
  }

  // ------------------------------------------------------------ integers

  const MinInt: int := -0x8000_0000_0000_0000
  const MaxInt: int := 0x7FFF_FFFF_FFFF_FFFF

  /** A value that fits Swift's 64-bit `Int`. */
  predicate InIntRange(n: int)
  {
    MinInt <= n <= MaxInt
  }

  predicate IsDigit(c: char)
  {
    '0' <= c <= '9'
  }

  predicate AllDigits(s: string)
  {
    forall i :: 0 <= i < |s| ==> IsDigit(s[i])
  }

  /** The decimal value of a string of digits, read left to right. */
  function DigitsValue(s: string): nat
    requires AllDigits(s)
  {
    if s == [] then 0
    else DigitsValue(s[..|s| - 1]) * 10 + (s[|s| - 1] as int - '0' as int)
  }

  /**
   * Reading a string as a Swift integer: an optional `+` or `-`, then one or
   * more ASCII digits, whose value must fit in 64 bits; anything else is `nil`.
   */
  function ParseInt(s: string): Option<int>
  {
    var signed := |s| > 0 && (s[0] == '+' || s[0] == '-');
    var digits := if signed then s[1..] else s;
    if digits == [] || !AllDigits(digits) then None
    else
      var v: int := if signed && s[0] == '-' then -(DigitsValue(digits) as int) else DigitsValue(digits);
      if InIntRange(v) then Some(v) else None
  }

  function DigitChar(d: nat): char
    requires d < 10
  {
    ('0' as int + d) as char
  }

  /** The decimal digits of `n`, without leading zeros. */
  function NatDigits(n: nat): string
  {
    if n < 10 then [DigitChar(n)] else NatDigits(n / 10) + [DigitChar(n % 10)]
  }

  /** The decimal text of `n`: a minus sign for negative numbers, then the digits. */
  function Decimal(n: int): string
  {
    if n < 0 then "-" + NatDigits(-n) else NatDigits(n)
  }

  lemma {:induction false} NatDigitsValue(n: nat)
    ensures NatDigits(n) != [] && AllDigits(NatDigits(n))
    ensures DigitsValue(NatDigits(n)) == n
  {
    if n >= 10 {
      NatDigitsValue(n / 10);
      var p := NatDigits(n / 10);
      var s := p + [DigitChar(n % 10)];
      assert s[..|s| - 1] == p;
    }
  }

  /** Every 64-bit integer prints as a token that parses back to it. */
  lemma DecimalRoundTrip(n: int)
    requires InIntRange(n)
    ensures IsToken(Decimal(n))
    ensures ParseInt(Decimal(n)) == Some(n)
  {
    NatDigitsValue(if n < 0 then -n else n);
    var d := NatDigits(if n < 0 then -n else n);
    assert forall c :: c in d ==> IsDigit(c);
    if n < 0 {
      assert Decimal(n)[1..] == d;
    } else {
      assert d[0] != '+' && d[0] != '-' by { assert IsDigit(d[0]); }
    }
  }

  // ------------------------------------------------ case-insensitive compare

  /** ASCII lower-casing of one character. */
  function Lower(c: char): char
  {
    if 'A' <= c <= 'Z' then (c as int + 32) as char else c
  }

  /** The case fold of a string, character by character. */
  function Fold(s: string): string
  {
    seq(|s|, i requires 0 <= i < |s| => Lower(s[i]))
  }

  /** `a` and `b` compare equal when case is ignored. */
  predicate SameIgnoringCase(a: string, b: string)
  {
    Fold(a) == Fold(b)
  }
}
