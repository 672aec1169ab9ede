/** Python's `int(text)` for base-10 text: surrounding whitespace is
    stripped, then an optional sign and decimal digits, single underscores
    allowed between digits. Anything else raises `ValueError`, modelled as
    `None`. */
module PyInt {
  import opened Wrappers
  import opened Chars

  // ---------------------------------------------------------------------
  // str.strip()

  /** `s` without its leading whitespace. */
  function TrimLeft(s: string): (r: string)
    ensures |r| <= |s| && r == s[|s| - |r|..]
    ensures AllIn(s[..|s| - |r|], Space)
    ensures r == [] || !IsSpaceChar(r[0])
  {
    if |s| > 0 && IsSpaceChar(s[0]) then
      var r := TrimLeft(s[1..]);
      TrimLeftStep(s, r);
      r
    else s
  }

  lemma TrimLeftStep(s: string, r: string)
    requires |s| > 0 && IsSpaceChar(s[0])
    requires |r| <= |s| - 1 && r == s[1..][|s| - 1 - |r|..]
    requires AllIn(s[1..][..|s| - 1 - |r|], Space)
    ensures r == s[|s| - |r|..]
    ensures AllIn(s[..|s| - |r|], Space)
  {
    var cut := |s| - |r|;
    assert s[1..][|s| - 1 - |r|..] == s[cut..];
    forall k | 0 <= k < cut
      ensures InClass(s[..cut][k], Space)
    {
      if k > 0 {
        assert s[..cut][k] == s[1..][..|s| - 1 - |r|][k - 1];
      }
    }
  }

  /** `s` without its trailing whitespace. */
  function TrimRight(s: string): (r: string)
    ensures |r| <= |s| && r == s[..|r|]
    ensures AllIn(s[|r|..], Space)
    ensures r == [] || !IsSpaceChar(r[|r| - 1])
  {
    if |s| > 0 && IsSpaceChar(s[|s| - 1]) then
      var r := TrimRight(s[..|s| - 1]);
      TrimRightStep(s, r);
      r
    else s
  }

  lemma TrimRightStep(s: string, r: string)
    requires |s| > 0 && IsSpaceChar(s[|s| - 1])
    requires |r| <= |s| - 1 && r == s[..|s| - 1][..|r|]
    requires AllIn(s[..|s| - 1][|r|..], Space)
    ensures r == s[..|r|]
    ensures AllIn(s[|r|..], Space)
  {
    assert s[..|s| - 1][..|r|] == s[..|r|];
    forall k | 0 <= k < |s| - |r|
      ensures InClass(s[|r|..][k], Space)
    {
      if k < |s| - 1 - |r| {
        assert s[|r|..][k] == s[..|s| - 1][|r|..][k];
      }
    }
  }

  /** `str.strip()`: what is left neither starts nor ends with whitespace. */
  function Strip(s: string): (r: string)
    ensures Trimmed(r)
  {
    TrimRight(TrimLeft(s))
  }

  /** Text that neither starts nor ends with whitespace. */
  predicate Trimmed(t: string) {
    t == [] || (!IsSpaceChar(t[0]) && !IsSpaceChar(t[|t| - 1]))
  }

  lemma {:induction false} TrimLeftPadded(w: string, t: string)
    requires AllIn(w, Space) && (t == [] || !IsSpaceChar(t[0]))
    ensures TrimLeft(w + t) == t
    decreases |w|
  {
    if w != [] {
      assert (w + t)[1..] == w[1..] + t;
      TrimLeftPadded(w[1..], t);
    } else {
      assert w + t == t;
    }
  }

  lemma {:induction false} TrimRightPadded(t: string, w: string)
    requires AllIn(w, Space) && (t == [] || !IsSpaceChar(t[|t| - 1]))
    ensures TrimRight(t + w) == t
    decreases |w|
  {
    if w != [] {
      assert (t + w)[..|t + w| - 1] == t + w[..|w| - 1];
      TrimRightPadded(t, w[..|w| - 1]);
    } else {
      assert t + w == t;
    }
  }

  /** Stripping removes exactly the whitespace around trimmed text. */
  lemma StripPadded(w1: string, t: string, w2: string)
    requires AllIn(w1, Space) && AllIn(w2, Space) && Trimmed(t)
    ensures Strip(w1 + t + w2) == t
  {
    assert w1 + t + w2 == w1 + (t + w2);
    if t == [] {
      assert w1 + t + w2 == w1 + w2;
      TrimLeftAllSpace(w1 + w2);
    } else {
      assert (t + w2)[0] == t[0];
      TrimLeftPadded(w1, t + w2);
      TrimRightPadded(t, w2);
    }
  }

  lemma StripTrimmed(t: string)
    requires Trimmed(t)
    ensures Strip(t) == t
  {
    TrimLeftPadded([], t);
    assert [] + t == t;
    TrimRightPadded(t, []);
    assert t + [] == t;
  }

  lemma {:induction false} TrimLeftAllSpace(s: string)
    requires AllIn(s, Space)
    ensures TrimLeft(s) == []
    decreases |s|
  {
    if s != [] {
      TrimLeftAllSpace(s[1..]);
    }
  }

  // ---------------------------------------------------------------------
  // Decimal digits

  function DigitValue(c: char): (d: nat)
    requires IsDigitChar(c)
    ensures d < 10
  {
    (c - '0') as nat
  }

  function DigitChar(d: nat): (c: char)
    requires d < 10
    ensures IsDigitChar(c) && DigitValue(c) == d
  {
    ('0' as int + d) as char
  }

  /** The number the decimal digits `ds` denote, most significant first. */
  function DigitsValue(ds: string): nat
    requires AllIn(ds, Digit)
  {
    if ds == [] then 0 else 10 * DigitsValue(ds[..|ds| - 1]) + DigitValue(ds[|ds| - 1])
  }

  /** The decimal representation of `n`, without leading zeros. */
  function ShowNat(n: nat): (s: string)
    ensures IsRun(s, Digit)
    ensures |s| > 1 ==> s[0] != '0'
  {
    if n < 10 then [DigitChar(n)] else ShowNat(n / 10) + [DigitChar(n % 10)]
  }

  /** `str(n)`. */
  function ShowInt(n: int): string {
    if n < 0 then "-" + ShowNat(-n) else ShowNat(n)
  }

  lemma {:induction false} ShowNatValue(n: nat)
    ensures DigitsValue(ShowNat(n)) == n
  {
    if n >= 10 {
      var s := ShowNat(n);
      assert s[..|s| - 1] == ShowNat(n / 10);
      ShowNatValue(n / 10);
    }
  }

  // ---------------------------------------------------------------------
  // int()

  /** Digits with single underscores between them, as `int()` accepts. */
  predicate IsDigitGroups(b: string) {
    |b| > 0 && IsDigitChar(b[0]) && IsDigitChar(b[|b| - 1]) &&
    forall k :: 0 <= k < |b| ==> IsDigitChar(b[k]) || (b[k] == '_' && k + 1 < |b| && IsDigitChar(b[k + 1]))
  }

  /** The digits of `b`, underscores dropped. */
  function DropUnderscores(b: string): (ds: string)
    ensures |ds| <= |b|
    ensures (forall k :: 0 <= k < |b| ==> IsDigitChar(b[k]) || b[k] == '_') ==> AllIn(ds, Digit)
  {
    if b == [] then []
    else if b[|b| - 1] == '_' then DropUnderscores(b[..|b| - 1])
    else DropUnderscores(b[..|b| - 1]) + [b[|b| - 1]]
  }

  /** The optional sign in front of the digits: whether it is `-`, and
      the text after it. */
  function SplitSign(t: string): (r: (bool, string))
    ensures r.0 ==> |t| > 0 && t[0] == '-'
    ensures r.1 == if |t| > 0 && (t[0] == '+' || t[0] == '-') then t[1..] else t
  {
    if |t| > 0 && (t[0] == '+' || t[0] == '-') then (t[0] == '-', t[1..]) else (false, t)
  }

  /** `int(s)`: `Some(n)` for a decimal integer literal between whitespace,
      `None` where Python raises `ValueError`. */
  function ParseInt(s: string): (r: Option<int>)
    ensures r.Some? <==> IsDigitGroups(SplitSign(Strip(s)).1)
  {
    var (negative, body) := SplitSign(Strip(s));
    if IsDigitGroups(body) then
      GroupsChars(body);
      var n := DigitsValue(DropUnderscores(body));
      Some(if negative then -(n as int) else n)
    else None
  }

  lemma GroupsChars(b: string)
    requires IsDigitGroups(b)
    ensures forall k :: 0 <= k < |b| ==> IsDigitChar(b[k]) || b[k] == '_'
  {
    forall k | 0 <= k < |b|
      ensures IsDigitChar(b[k]) || b[k] == '_'
    {
      assert IsDigitChar(b[k]) || (b[k] == '_' && k + 1 < |b| && IsDigitChar(b[k + 1]));
    }
  }

  lemma {:induction false} DropNoUnderscores(ds: string)
    requires AllIn(ds, Digit)
    ensures DropUnderscores(ds) == ds
    decreases |ds|
  {
    if ds != [] {
      DropNoUnderscores(ds[..|ds| - 1]);
    }
  }

  /** `int(d)` of a run of digits, such as a group of `\d+`, is the number
      they denote. */
  lemma ParseDigits(ds: string)
    requires IsRun(ds, Digit)
    ensures ParseInt(ds) == Some(DigitsValue(ds))
  {
    assert InClass(ds[0], Digit) && InClass(ds[|ds| - 1], Digit);
    StripTrimmed(ds);
    assert SplitSign(ds) == (false, ds) by {
      assert InClass(ds[0], Digit);
    }
    DigitsAreGroups(ds);
    DropNoUnderscores(ds);
  }

  lemma DigitsAreGroups(ds: string)
    requires IsRun(ds, Digit)
    ensures IsDigitGroups(ds)
  {
    assert InClass(ds[0], Digit) && InClass(ds[|ds| - 1], Digit);
  }

  /** `int(str(n))` is `n`, whatever whitespace surrounds the text. */
  lemma ParseShowInt(w1: string, n: int, w2: string)
    requires AllIn(w1, Space) && AllIn(w2, Space)
    ensures ParseInt(w1 + ShowInt(n) + w2) == Some(n)
  {
    var m: nat := if n < 0 then -n else n;
    var ds := ShowNat(m);
    StripPadded(w1, ShowInt(n), w2);
    SplitShowInt(n);
    DigitsAreGroups(ds);
    DropNoUnderscores(ds);
    ShowNatValue(m);
  }

  /** The sign of `str(n)` is `-` exactly for negative `n`, and the digits
      after it are those of `abs(n)`. */
  lemma SplitShowInt(n: int)
    ensures SplitSign(ShowInt(n)) == (n < 0, ShowNat(if n < 0 then -n else n))
  {
    var m: nat := if n < 0 then -n else n;
    var ds := ShowNat(m);
    assert InClass(ds[0], Digit);
    if n < 0 {
      var t := "-" + ds;
      assert t[0] == '-' && t[1..] == ds;
    }
  }
}
