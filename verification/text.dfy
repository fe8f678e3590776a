/**
  String operations of the JavaScript standard library that the client
  uses: `String.prototype.trim`, `String.prototype.startsWith` and the
  decimal rendering of a count inside a template literal.
 */
module Text {

  /**
    The characters `trim` removes: ECMAScript's WhiteSpace (tab, vertical
    tab, form feed, the byte order mark and every space separator) and
    LineTerminator (line feed, carriage return, line and paragraph
    separators).
   */
  predicate IsWhiteSpace(c: char) {
    var u := c as int;
    || u == 0x09 || u == 0x0B || u == 0x0C || u == 0xFEFF       // TAB, VT, FF, ZWNBSP
    || u == 0x20 || u == 0xA0 || u == 0x1680                     // space separators (Zs) ...
    || (0x2000 <= u <= 0x200A) || u == 0x202F || u == 0x205F || u == 0x3000
    || u == 0x0A || u == 0x0D || u == 0x2028 || u == 0x2029      // LF, CR, LS, PS
  }

  ghost predicate AllWhiteSpace(s: string) {
    forall k :: 0 <= k < |s| ==> IsWhiteSpace(s[k])
  }

  /** `s` without its leading white space. */
  function TrimStart(s: string): (r: string)
    ensures |r| <= |s| && r == s[|s| - |r|..]
    ensures AllWhiteSpace(s[..|s| - |r|])
    ensures r == [] || !IsWhiteSpace(r[0])
    decreases |s|
  {
    if |s| > 0 && IsWhiteSpace(s[0]) then
      var r := TrimStart(s[1..]);
      WhiteSpaceCons(s, |s| - |r|);
      r
    else
      s
  }

  /** `s` without its trailing white space. */
  function TrimEnd(s: string): (r: string)
    ensures |r| <= |s| && r == s[..|r|]
    ensures AllWhiteSpace(s[|r|..])
    ensures r == [] || !IsWhiteSpace(r[|r| - 1])
    decreases |s|
  {
    if |s| > 0 && IsWhiteSpace(s[|s| - 1]) then
      var r := TrimEnd(s[..|s| - 1]);
      WhiteSpaceSnoc(s, |r|);
      r
    else
      s
  }

  lemma WhiteSpaceCons(s: string, m: nat)
    requires 0 < m <= |s| && IsWhiteSpace(s[0]) && AllWhiteSpace(s[1..][..m - 1])
    ensures AllWhiteSpace(s[..m])
  {
    assert forall k :: 1 <= k < m ==> s[..m][k] == s[1..][..m - 1][k - 1];
  }

  lemma WhiteSpaceSnoc(s: string, m: nat)
    requires m < |s| && IsWhiteSpace(s[|s| - 1]) && AllWhiteSpace(s[..|s| - 1][m..])
    ensures AllWhiteSpace(s[m..])
  {
    assert forall k :: 0 <= k < |s| - 1 - m ==> s[m..][k] == s[..|s| - 1][m..][k];
  }

  lemma WhiteSpaceConcat(a: string, b: string)
    ensures AllWhiteSpace(a) && AllWhiteSpace(b) ==> AllWhiteSpace(a + b)
  {
    if AllWhiteSpace(a) && AllWhiteSpace(b) {
      forall k | 0 <= k < |a + b|
        ensures IsWhiteSpace((a + b)[k])
      {
        if k < |a| {
          assert (a + b)[k] == a[k];
        } else {
          assert (a + b)[k] == b[k - |a|];
        }
      }
    }
  }

  /** `m` is the part `s[i..j]` of `s` between the white-space prefix `s[..i]` and the white-space suffix `s[j..]`. */
  ghost predicate Frames(s: string, i: int, j: int, m: string) {
    0 <= i <= j <= |s| && m == s[i..j] && AllWhiteSpace(s[..i]) && AllWhiteSpace(s[j..])
  }

  /**
    `String.prototype.trim`: the result is the part of `s` between a
    white-space prefix and a white-space suffix, and it neither starts
    nor ends with white space.
   */
  function Trim(s: string): (r: string)
    ensures exists i, j :: Frames(s, i, j, r)
    ensures r == [] || (!IsWhiteSpace(r[0]) && !IsWhiteSpace(r[|r| - 1]))
    ensures r == [] <==> AllWhiteSpace(s)
  {
    var t := TrimStart(s);
    var r := TrimEnd(t);
    TrimFraming(s, t, r);
    TrimEnds(t, r);
    TrimEmpty(s, t, r);
    r
  }

  lemma TrimFraming(s: string, t: string, r: string)
    requires t == TrimStart(s) && r == TrimEnd(t)
    ensures exists i, j :: Frames(s, i, j, r)
  {
    var i := |s| - |t|;
    var j := i + |r|;
    SliceOfSuffix(s, i, j);
    assert Frames(s, i, j, r);
  }

  lemma SliceOfSuffix(s: string, i: nat, j: nat)
    requires i <= j <= |s|
    ensures s[i..][..j - i] == s[i..j] && s[i..][j - i..] == s[j..]
  {
  }

  lemma TrimEnds(t: string, r: string)
    requires t == [] || !IsWhiteSpace(t[0])
    requires |r| <= |t| && r == t[..|r|] && (r == [] || !IsWhiteSpace(r[|r| - 1]))
    ensures r == [] || (!IsWhiteSpace(r[0]) && !IsWhiteSpace(r[|r| - 1]))
  {
    assert r != [] ==> r[0] == t[0];
  }

  lemma TrimEmpty(s: string, t: string, r: string)
    requires t == TrimStart(s) && r == TrimEnd(t)
    ensures r == [] <==> AllWhiteSpace(s)
  {
    var i := |s| - |t|;
    if r == [] {
      assert s == s[..i] + t;
      assert t == t[|r|..];
      WhiteSpaceConcat(s[..i], t);
    } else {
      assert s[i] == r[0];
    }
  }

  /** TrimStart skips exactly a white-space prefix that is followed by a non-white-space character. */
  lemma {:induction false} TrimStartSkips(a: string, x: string)
    requires AllWhiteSpace(a)
    requires x == [] || !IsWhiteSpace(x[0])
    ensures TrimStart(a + x) == x
    decreases |a|
  {
    if a != [] {
      assert (a + x)[1..] == a[1..] + x;
      TrimStartSkips(a[1..], x);
    }
  }

  /** TrimEnd drops exactly a white-space suffix that follows a non-white-space character. */
  lemma {:induction false} TrimEndSkips(x: string, b: string)
    requires AllWhiteSpace(b)
    requires x == [] || !IsWhiteSpace(x[|x| - 1])
    ensures TrimEnd(x + b) == x
    decreases |b|
  {
    if b != [] {
      assert (x + b)[..|x + b| - 1] == x + b[..|b| - 1];
      TrimEndSkips(x, b[..|b| - 1]);
    }
  }

  /** Trim determines its result: the middle of any white-space framing with non-white-space ends. */
  lemma TrimUnique(a: string, m: string, b: string)
    requires AllWhiteSpace(a) && AllWhiteSpace(b)
    requires m == [] || (!IsWhiteSpace(m[0]) && !IsWhiteSpace(m[|m| - 1]))
    ensures Trim(a + m + b) == m
  {
    if m == [] {
      WhiteSpaceConcat(a, b);
      assert a + m + b == (a + b) + [];
      TrimStartSkips(a + b, []);
      TrimEndSkips([], []);
    } else {
      assert a + m + b == a + (m + b);
      TrimStartSkips(a, m + b);
      TrimEndSkips(m, b);
    }
  }

  /** Trimming twice is trimming once. */
  lemma TrimIdempotent(s: string)
    ensures Trim(Trim(s)) == Trim(s)
  {
    TrimUnique([], Trim(s), []);
    assert [] + Trim(s) + [] == Trim(s);
  }

  /** `String.prototype.startsWith` with one argument. */
  predicate StartsWith(s: string, prefix: string) {
    |prefix| <= |s| && s[..|prefix|] == prefix
  }

  /** A string starts with `prefix` exactly when it is `prefix` followed by something. */
  lemma StartsWithMeansPrefix(s: string, prefix: string)
    ensures StartsWith(s, prefix) <==> exists rest :: s == prefix + rest
  {
    if StartsWith(s, prefix) {
      assert s == prefix + s[|prefix|..];
    }
  }

  predicate IsDigit(c: char) {
    '0' <= c <= '9'
  }

  function DigitChar(d: nat): (c: char)
    requires d < 10
    ensures IsDigit(c) && c as int - '0' as int == d
  {
    ('0' as int + d) as char
  }

  /** The number a string of decimal digits denotes. */
  function DecimalValue(s: string): nat
    requires forall k :: 0 <= k < |s| ==> IsDigit(s[k])
  {
    if s == [] then 0
    else
      assert IsDigit(s[|s| - 1]);
      DecimalValue(s[..|s| - 1]) * 10 + (s[|s| - 1] as int - '0' as int)
  }

  /**
    JavaScript's rendering of a non-negative integer below 10^21 (the
    ToString of a Number, as a template literal uses it): its decimal
    digits, with no leading zero except for zero itself.
   */
  function Decimal(n: nat): (r: string)
    ensures |r| >= 1
    ensures forall k :: 0 <= k < |r| ==> IsDigit(r[k])
    ensures r[0] == '0' ==> n == 0 && r == "0"
    decreases n
  {
    if n < 10 then [DigitChar(n)] else Decimal(n / 10) + [DigitChar(n % 10)]
  }

  /** Reading the rendered digits back gives the number. */
  lemma {:induction false} DecimalRoundTrip(n: nat)
    ensures DecimalValue(Decimal(n)) == n
    decreases n
  {
    if n >= 10 {
      DecimalRoundTrip(n / 10);
      var r := Decimal(n);
      assert r[..|r| - 1] == Decimal(n / 10);
    }
  }
}
