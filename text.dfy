/** String helpers the converter relies on: whitespace trimming (`clean`),
    Swift's decimal rendering of an `Int` inside string interpolation, and
    `joined(separator:)` together with the splitting that undoes it. */
module Text {
  import opened Wrappers

  /** The characters `CharacterSet.whitespacesAndNewlines` removes, restricted
      to the ASCII blanks and line breaks, NEXT LINE and NO-BREAK SPACE. */
  predicate IsWhitespace(c: char) {
    c == ' ' || c == '\t' || c == '\n' || c == '\r' || c == '\U{000B}' || c == '\U{000C}'
    || c == '\U{0085}' || c == '\U{00A0}'
  }

  predicate AllWhitespace(s: string) {
    forall i :: 0 <= i < |s| ==> IsWhitespace(s[i])
  }

  /** Neither begins nor ends with whitespace. */
  predicate Trimmed(s: string) {
    s == [] || (!IsWhitespace(s[0]) && !IsWhitespace(s[|s| - 1]))
  }

  function TrimStart(s: string): (r: string)
    ensures |r| <= |s| && r == s[|s| - |r|..]
    ensures AllWhitespace(s[..|s| - |r|])
    ensures r == [] || !IsWhitespace(r[0])
  {
    if s != [] && IsWhitespace(s[0]) then
      var r := TrimStart(s[1..]);
      assert s[1..][|s| - 1 - |r|..] == s[|s| - |r|..];
      assert AllWhitespace(s[..|s| - |r|]) by {
        var head := s[..|s| - |r|];
        forall i | 0 <= i < |head| ensures IsWhitespace(head[i]) {
          if i > 0 { assert head[i] == s[1..][..|s| - 1 - |r|][i - 1]; }
        }
      }
      r
    else s
  }

  function TrimEnd(s: string): (r: string)
    ensures |r| <= |s| && r == s[..|r|]
    ensures AllWhitespace(s[|r|..])
    ensures r == [] || !IsWhitespace(r[|r| - 1])
  {
    if s != [] && IsWhitespace(s[|s| - 1]) then
      var r := TrimEnd(s[..|s| - 1]);
      assert s[..|s| - 1][..|r|] == s[..|r|];
      assert AllWhitespace(s[|r|..]) by {
        var tail := s[|r|..];
        forall i | 0 <= i < |tail| ensures IsWhitespace(tail[i]) {
          if i < |tail| - 1 { assert tail[i] == s[..|s| - 1][|r|..][i]; }
        }
      }
      r
    else s
  }

  /** `s` is `r` with whitespace before it (up to `k`) and after it. */
  predicate Surrounds(s: string, r: string, k: int) {
    0 <= k <= |s| - |r| && s[k..k + |r|] == r && AllWhitespace(s[..k]) && AllWhitespace(s[k + |r|..])
  }

  /** `clean`: the text with its leading and trailing whitespace removed and
      everything between them untouched. */
  function Clean(s: string): (r: string)
    ensures Trimmed(r)
    ensures exists k :: Surrounds(s, r, k)
  {
    var t := TrimStart(s);
    var r := TrimEnd(t);
    TrimBoth(s, t, r);
    r
  }

  /** A text `t` that follows whitespace in `s`, and a text `r` that is
      followed by whitespace in `t`: `r` is the middle of `s`. */
  lemma TrimBoth(s: string, t: string, r: string)
    requires |t| <= |s| && t == s[|s| - |t|..] && AllWhitespace(s[..|s| - |t|]) && (t == [] || !IsWhitespace(t[0]))
    requires |r| <= |t| && r == t[..|r|] && AllWhitespace(t[|r|..]) && (r == [] || !IsWhitespace(r[|r| - 1]))
    ensures Trimmed(r) && Surrounds(s, r, |s| - |t|)
  {
    var k := |s| - |t|;
    assert s[k..k + |r|] == r by {
      assert r == t[..|r|];
    }
    var tail := s[k + |r|..];
    forall i | 0 <= i < |tail| ensures IsWhitespace(tail[i]) {
      assert tail[i] == t[|r|..][i];
    }
    if r != [] {
      assert r[0] == t[0];
    }
  }

  lemma {:induction false} TrimStartDropsWhitespace(a: string, t: string)
    requires AllWhitespace(a)
    requires t == [] || !IsWhitespace(t[0])
    ensures TrimStart(a + t) == t
  {
    if a != [] {
      assert (a + t)[1..] == a[1..] + t;
      TrimStartDropsWhitespace(a[1..], t);
    }
  }

  lemma {:induction false} TrimEndDropsWhitespace(t: string, b: string)
    requires AllWhitespace(b)
    requires t == [] || !IsWhitespace(t[|t| - 1])
    ensures TrimEnd(t + b) == t
  {
    if b != [] {
      assert (t + b)[..|t + b| - 1] == t + b[..|b| - 1];
      TrimEndDropsWhitespace(t, b[..|b| - 1]);
    }
  }

  /** Whatever whitespace surrounds a trimmed text, `clean` recovers exactly
      that text: the decomposition in Clean's contract is unique. */
  lemma CleanRecovers(a: string, m: string, b: string)
    requires AllWhitespace(a) && AllWhitespace(b) && Trimmed(m)
    ensures Clean(a + m + b) == m
  {
    if m == [] {
      assert a + m + b == a + b;
      assert AllWhitespace(a + b) by {
        forall i | 0 <= i < |a + b| ensures IsWhitespace((a + b)[i]) {
          if i >= |a| { assert (a + b)[i] == b[i - |a|]; }
        }
      }
      assert (a + b) + [] == a + b;
      TrimStartDropsWhitespace(a + b, []);
      assert TrimEnd([]) == [];
    } else {
      assert a + m + b == a + (m + b);
      TrimStartDropsWhitespace(a, m + b);
      TrimEndDropsWhitespace(m, b);
    }
  }

  /** Cleaning twice is cleaning once. */
  lemma CleanIdempotent(s: string)
    ensures Clean(Clean(s)) == Clean(s)
  {
    var m := Clean(s);
    assert [] + m + [] == m;
    CleanRecovers([], m, []);
  }

  predicate IsDigit(c: char) {
    '0' <= c <= '9'
  }

  predicate AllDigits(s: string) {
    forall i :: 0 <= i < |s| ==> IsDigit(s[i])
  }

  function DigitChar(d: nat): (c: char)
    requires d < 10
    ensures IsDigit(c) && c as int - '0' as int == d
  {
    (('0' as int) + d) as char
  }

  /** Decimal digits of a natural number, without leading zeros. */
  function Digits(n: nat): (r: string)
    ensures |r| >= 1 && AllDigits(r)
    ensures r[0] == '0' <==> n == 0
    decreases n
  {
    if n < 10 then [DigitChar(n)] else Digits(n / 10) + [DigitChar(n % 10)]
  }

  /** The number a string of decimal digits denotes. */
  function DigitsValue(s: string): nat
    requires AllDigits(s)
  {
    if s == [] then 0 else DigitsValue(s[..|s| - 1]) * 10 + (s[|s| - 1] as int - '0' as int)
  }

  lemma {:induction false} DigitsRoundTrip(n: nat)
    ensures DigitsValue(Digits(n)) == n
  {
    if n >= 10 {
      DigitsRoundTrip(n / 10);
      var s := Digits(n);
      assert s[..|s| - 1] == Digits(n / 10);
    }
  }

  /** Swift's rendering of an `Int` in string interpolation: a minus sign for
      negative numbers, then the decimal digits. */
  function DecimalString(n: int): (r: string)
    ensures r != [] && ' ' !in r
    ensures AllDigits(r) <==> n >= 0
    ensures n >= 0 && |r| >= 2 ==> r[0] != '0'
    ensures n < 0 ==> |r| >= 2 && r[0] == '-' && r[1] != '0'
  {
    if n < 0 then
      var r := "-" + Digits(-n);
      assert !IsDigit(r[0]);
      r
    else Digits(n)
  }

  /** Reads back an optionally negative decimal integer. */
  function ParseDecimal(s: string): Option<int> {
    if |s| >= 2 && s[0] == '-' && AllDigits(s[1..]) then Some(0 - DigitsValue(s[1..]) as int)
    else if |s| >= 1 && AllDigits(s) then Some(DigitsValue(s))
    else None
  }

  /** The interpolated text of an integer determines the integer. */
  lemma DecimalRoundTrip(n: int)
    ensures ParseDecimal(DecimalString(n)) == Some(n)
  {
    var s := DecimalString(n);
    if n < 0 {
      assert s[0] == '-' && s[1..] == Digits(-n);
      DigitsRoundTrip(-n);
    } else {
      assert s == Digits(n) && IsDigit(s[0]);
      DigitsRoundTrip(n);
    }
  }

  /** `joined(separator:)`: the pieces with one separator between neighbours. */
  function Join(ps: seq<string>, sep: string): (r: string)
    ensures ps == [] ==> r == ""
    ensures ps != [] ==> ps[0] <= r
  {
    if |ps| == 0 then ""
    else if |ps| == 1 then ps[0]
    else ps[0] + sep + Join(ps[1..], sep)
  }

  /** Appending a piece appends the separator and that piece, for any
      separator string. */
  lemma {:induction false} JoinAppend(ps: seq<string>, sep: string, q: string)
    requires ps != []
    ensures Join(ps + [q], sep) == Join(ps, sep) + sep + q
  {
    if |ps| > 1 {
      JoinAppend(ps[1..], sep, q);
      assert (ps + [q])[1..] == ps[1..] + [q];
    }
  }

  /** The pieces between occurrences of `c`, at least one piece. */
  function SplitOn(s: string, c: char): (r: seq<string>)
    ensures |r| >= 1
    ensures forall i :: 0 <= i < |r| ==> c !in r[i]
  {
    if s == [] then [""]
    else
      var rest := SplitOn(s[1..], c);
      if s[0] == c then [""] + rest else [[s[0]] + rest[0]] + rest[1..]
  }

  lemma {:induction false} SplitOnPiece(p: string, c: char)
    requires c !in p
    ensures SplitOn(p, c) == [p]
  {
    if p != [] {
      SplitOnPiece(p[1..], c);
      assert [p[0]] + p[1..] == p;
    }
  }

  lemma {:induction false} SplitOnFirst(p: string, c: char, t: string)
    requires c !in p
    ensures SplitOn(p + [c] + t, c) == [p] + SplitOn(t, c)
  {
    if p == [] {
      assert (p + [c] + t)[1..] == t;
    } else {
      assert (p + [c] + t)[1..] == p[1..] + [c] + t;
      SplitOnFirst(p[1..], c, t);
      assert [p[0]] + p[1..] == p;
    }
  }

  /** Joining with a one-character separator and splitting on it gives the
      pieces back, provided no piece contains the separator. */
  lemma {:induction false} SplitJoinRoundTrip(ps: seq<string>, c: char)
    requires |ps| >= 1
    requires forall i :: 0 <= i < |ps| ==> c !in ps[i]
    ensures SplitOn(Join(ps, [c]), c) == ps
  {
    if |ps| == 1 {
      SplitOnPiece(ps[0], c);
    } else {
      SplitJoinRoundTrip(ps[1..], c);
      SplitOnFirst(ps[0], c, Join(ps[1..], [c]));
      assert [ps[0]] + ps[1..] == ps;
    }
  }

  /** Splitting and joining again gives back the original text. */
  lemma {:induction false} JoinSplitRoundTrip(s: string, c: char)
    ensures Join(SplitOn(s, c), [c]) == s
  {
    if s != [] {
      JoinSplitRoundTrip(s[1..], c);
      var rest := SplitOn(s[1..], c);
      if s[0] == c {
        assert ([""] + rest)[1..] == rest;
        assert s == [c] + s[1..];
      } else if |rest| == 1 {
        assert s == [s[0]] + s[1..];
      } else {
        var r := [[s[0]] + rest[0]] + rest[1..];
        assert r[1..] == rest[1..];
        assert s == [s[0]] + s[1..];
      }
    }
  }
}
