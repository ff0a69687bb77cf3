/**
 * The few pieces of Python's text handling the modelled code relies on:
 * `str(int)`, `int(str)`, zero-padded decimal fields as `strftime` writes
 * them, and `str.split(sep)`.
 */
module Text {
  import opened Wrappers

  predicate IsDigit(c: char) {
    '0' <= c <= '9'
  }

  predicate AllDigits(s: string) {
    forall i :: 0 <= i < |s| ==> IsDigit(s[i])
  }

  function DigitChar(d: nat): (c: char)
    requires d < 10
    ensures IsDigit(c) && c as int - '0' as int == d
  {
    ('0' as int + d) as char
  }

  /** The number a string of decimal digits denotes (leading zeros allowed). */
  function DigitsValue(s: string): nat
    requires AllDigits(s)
  {
    if s == [] then 0 else DigitsValue(s[..|s| - 1]) * 10 + (s[|s| - 1] as int - '0' as int)
  }

  /** Python's `str(n)` for a natural number: shortest decimal form. */
  function NatToString(n: nat): (s: string)
    ensures |s| >= 1 && AllDigits(s)
    ensures DigitsValue(s) == n
    ensures |s| > 1 ==> s[0] != '0'
  {
    if n < 10 then [DigitChar(n)]
    else
      var prefix := NatToString(n / 10);
      assert (prefix + [DigitChar(n % 10)])[..|prefix|] == prefix;
      prefix + [DigitChar(n % 10)]
  }

  /** Python's `str(i)`: a minus sign for negative numbers, then the digits. */
  function IntToString(i: int): (s: string)
    ensures |s| >= 1
    ensures i < 0 ==> s[0] == '-' && s[1..] == NatToString(-i)
    ensures i >= 0 ==> s == NatToString(i)
  {
    if i < 0 then "-" + NatToString(-i) else NatToString(i)
  }

  /** The two-digit zero-padded field `strftime` writes for `%H`, `%M`, `%m`, `%d`. */
  function Pad2(n: nat): (s: string)
    requires n < 100
    ensures |s| == 2 && AllDigits(s) && DigitsValue(s) == n
  {
    var s := [DigitChar(n / 10), DigitChar(n % 10)];
    assert s[..1] == [s[0]] && [s[0]][..0] == [];
    assert DigitsValue(s[..1]) == n / 10;
    s
  }

  lemma DigitsValueAppend2(a: string, b: string)
    requires AllDigits(a) && AllDigits(b) && |b| == 2
    ensures AllDigits(a + b)
    ensures DigitsValue(a + b) == DigitsValue(a) * 100 + DigitsValue(b)
  {
    var ab := a + b;
    var d0, d1 := b[0] as int - '0' as int, b[1] as int - '0' as int;
    assert ab[..|ab| - 1] == a + [b[0]];
    assert (a + [b[0]])[..|a|] == a;
    assert DigitsValue(a + [b[0]]) == DigitsValue(a) * 10 + d0;
    assert DigitsValue(ab) == (DigitsValue(a) * 10 + d0) * 10 + d1;
    assert b[..|b| - 1] == [b[0]] && [b[0]][..0] == [];
    assert DigitsValue([b[0]]) == d0;
    assert DigitsValue(b) == d0 * 10 + d1;
  }

  /** The four-digit zero-padded field `strftime` writes for `%Y`. */
  function Pad4(n: nat): (s: string)
    requires n < 10000
    ensures |s| == 4 && AllDigits(s) && DigitsValue(s) == n
  {
    DigitsValueAppend2(Pad2(n / 100), Pad2(n % 100));
    Pad2(n / 100) + Pad2(n % 100)
  }

  /**
   * The ASCII characters `int()` skips around a number: space and `\t` to `\r`
   * (not the separators `\x1c` to `\x1f`, which `str.strip()` would also remove).
   */
  predicate IsSpace(c: char) {
    c == ' ' || ('\t' <= c <= '\r')
  }

  function TrimStart(s: string): (r: string)
    ensures |r| <= |s| && r == s[|s| - |r|..]
    ensures r == [] || !IsSpace(r[0])
  {
    if s != [] && IsSpace(s[0]) then TrimStart(s[1..]) else s
  }

  function TrimEnd(s: string): (r: string)
    ensures |r| <= |s| && r == s[..|r|]
    ensures r == [] || !IsSpace(r[|r| - 1])
  {
    if s != [] && IsSpace(s[|s| - 1]) then TrimEnd(s[..|s| - 1]) else s
  }

  /** The text without the characters `int()` skips around a number. */
  function Trim(s: string): string {
    TrimEnd(TrimStart(s))
  }

  /** The characters of `s` other than `_`, in order. */
  function WithoutUnderscores(s: string): (r: string)
    ensures (forall i :: 0 <= i < |s| ==> IsDigit(s[i]) || s[i] == '_') ==> AllDigits(r)
    ensures AllDigits(s) ==> r == s
  {
    if s == [] then []
    else (if s[0] == '_' then [] else [s[0]]) + WithoutUnderscores(s[1..])
  }

  /**
   * Digits with single underscores between them, the body `int()` accepts
   * after an optional sign: "1_000" is accepted, "_1", "1_" and "1__0" are not.
   */
  predicate WellGrouped(s: string) {
    && |s| > 0
    && IsDigit(s[0])
    && IsDigit(s[|s| - 1])
    && (forall i :: 0 <= i < |s| ==> IsDigit(s[i]) || s[i] == '_')
    && (forall i :: 0 <= i < |s| - 1 && s[i] == '_' ==> s[i + 1] != '_')
  }

  function ParseDigits(s: string): (r: Option<nat>)
    ensures r.Some? <==> WellGrouped(s)
    ensures AllDigits(s) && s != [] ==> r == Some(DigitsValue(s))
  {
    if WellGrouped(s) then Some(DigitsValue(WithoutUnderscores(s))) else None
  }

  /** The trimmed text `int()` accepts: grouped digits, or one sign followed by grouped digits. */
  predicate IsIntText(t: string) {
    WellGrouped(t) || (|t| > 0 && (t[0] == '-' || t[0] == '+') && WellGrouped(t[1..]))
  }

  /**
   * Python's `int(s)` in base 10 on ASCII text: surrounding whitespace, one
   * optional sign, then grouped digits; anything else raises `ValueError`,
   * modelled as `None`.
   */
  function ParseInt(s: string): (r: Option<int>)
    ensures r.Some? <==> IsIntText(Trim(s))
    ensures var t := Trim(s); WellGrouped(t) ==> r == Some(ParseDigits(t).value as int)
    ensures var t := Trim(s); |t| > 0 && t[0] == '+' && r.Some? ==> r.value == ParseDigits(t[1..]).value
    ensures var t := Trim(s); |t| > 0 && t[0] == '-' && r.Some? ==> r.value == -(ParseDigits(t[1..]).value as int)
  {
    var t := Trim(s);
    if |t| > 0 && (t[0] == '-' || t[0] == '+') then
      match ParseDigits(t[1..])
      case None => None
      case Some(n) =>
        var v: int := if t[0] == '-' then -(n as int) else n as int;
        Some(v)
    else
      match ParseDigits(t)
      case None => None
      case Some(n) => Some(n)
  }

  lemma {:induction false} WithoutUnderscoresAppend(a: string, b: string)
    ensures WithoutUnderscores(a + b) == WithoutUnderscores(a) + WithoutUnderscores(b)
  {
    if a == [] {
      assert a + b == b;
    } else {
      assert (a + b)[1..] == a[1..] + b;
      WithoutUnderscoresAppend(a[1..], b);
    }
  }

  lemma UnderscoreJoinWellGrouped(a: string, b: string)
    requires a != [] && b != [] && AllDigits(a) && AllDigits(b)
    ensures WellGrouped(a + "_" + b)
  {
    var s := a + "_" + b;
    forall i | 0 <= i < |s|
      ensures (i != |a| ==> IsDigit(s[i])) && (i == |a| ==> s[i] == '_')
    {
      if i < |a| {
        assert s[i] == a[i];
      } else if i > |a| {
        assert s[i] == b[i - |a| - 1];
      }
    }
  }

  /** An underscore between two groups of digits is accepted and does not change the value read. */
  lemma ParseDigitsSkipsUnderscore(a: string, b: string)
    requires a != [] && b != [] && AllDigits(a) && AllDigits(b)
    ensures ParseDigits(a + "_" + b) == Some(DigitsValue(a + b))
  {
    UnderscoreJoinWellGrouped(a, b);
    UnderscoreJoinRemoved(a, b);
  }

  /**
   * A grouping underscore between two well-grouped runs is accepted and ignored:
   * `int("1_000" + "_" + "000") == int("1_000000")`, and so on for any number of groups.
   */
  lemma ParseDigitsIgnoresGroupingUnderscore(a: string, b: string)
    requires WellGrouped(a) && WellGrouped(b)
    ensures WellGrouped(a + b) && WellGrouped(a + "_" + b)
    ensures ParseDigits(a + "_" + b) == ParseDigits(a + b)
  {
    WellGroupedJoin(a, b);
    var u := "_";
    assert WithoutUnderscores(u) == [] by {
      assert u[1..] == [];
    }
    calc {
      WithoutUnderscores(a + u + b);
      { assert a + u + b == a + (u + b); }
      WithoutUnderscores(a + (u + b));
      { WithoutUnderscoresAppend(a, u + b); WithoutUnderscoresAppend(u, b); }
      WithoutUnderscores(a) + ([] + WithoutUnderscores(b));
      { assert [] + WithoutUnderscores(b) == WithoutUnderscores(b); }
      WithoutUnderscores(a) + WithoutUnderscores(b);
      { WithoutUnderscoresAppend(a, b); }
      WithoutUnderscores(a + b);
    }
  }

  lemma WellGroupedJoin(a: string, b: string)
    requires WellGrouped(a) && WellGrouped(b)
    ensures WellGrouped(a + b) && WellGrouped(a + "_" + b)
  {
    var s := a + b;
    forall i | 0 <= i < |s|
      ensures IsDigit(s[i]) || s[i] == '_'
      ensures i < |s| - 1 && s[i] == '_' ==> s[i + 1] != '_'
    {
      if i < |a| {
        assert s[i] == a[i];
        if i == |a| - 1 { assert !(s[i] == '_'); }
        else { assert s[i + 1] == a[i + 1]; }
      } else {
        assert s[i] == b[i - |a|];
        if i < |s| - 1 { assert s[i + 1] == b[i + 1 - |a|]; }
      }
    }
    var t := a + "_" + b;
    forall i | 0 <= i < |t|
      ensures IsDigit(t[i]) || t[i] == '_'
      ensures i < |t| - 1 && t[i] == '_' ==> t[i + 1] != '_'
    {
      if i < |a| {
        assert t[i] == a[i];
        if i == |a| - 1 { assert !(t[i] == '_'); }
        else { assert t[i + 1] == a[i + 1]; }
      } else if i == |a| {
        assert t[i + 1] == b[0];
      } else {
        assert t[i] == b[i - |a| - 1];
        if i < |t| - 1 { assert t[i + 1] == b[i - |a|]; }
      }
    }
  }

  lemma UnderscoreJoinRemoved(a: string, b: string)
    requires AllDigits(a) && AllDigits(b)
    ensures WithoutUnderscores(a + "_" + b) == a + b
  {
    var u := "_";
    assert WithoutUnderscores(u) == [] by {
      assert u[1..] == [];
    }
    calc {
      WithoutUnderscores(a + u + b);
      { assert a + u + b == a + (u + b); }
      WithoutUnderscores(a + (u + b));
      { WithoutUnderscoresAppend(a, u + b); }
      WithoutUnderscores(a) + WithoutUnderscores(u + b);
      { WithoutUnderscoresAppend(u, b); }
      WithoutUnderscores(a) + ([] + WithoutUnderscores(b));
      { assert [] + WithoutUnderscores(b) == WithoutUnderscores(b); }
      a + b;
    }
  }

  /** Text that neither starts nor ends with whitespace is its own trim. */
  lemma TrimWithoutSpace(s: string)
    requires s != [] && !IsSpace(s[0]) && !IsSpace(s[|s| - 1])
    ensures Trim(s) == s
  {
    assert TrimStart(s) == s;
    assert TrimEnd(s) == s;
  }

  lemma ParseDigitsOfNatToString(n: nat)
    ensures ParseDigits(NatToString(n)) == Some(n)
  {
    var digits := NatToString(n);
    assert AllDigits(digits) && digits != [];
  }

  /** `int(str(i)) == i`. */
  lemma ParseIntOfIntToString(i: int)
    ensures ParseInt(IntToString(i)) == Some(i)
  {
    var s := IntToString(i);
    TrimWithoutSpace(s);
    if i < 0 {
      var digits := NatToString(-i);
      assert s[1..] == digits;
      ParseDigitsOfNatToString(-i);
    } else {
      assert IsDigit(s[0]);
      ParseDigitsOfNatToString(i);
    }
  }

  /** `str` is injective on integers. */
  lemma IntToStringInjective(i: int, j: int)
    requires IntToString(i) == IntToString(j)
    ensures i == j
  {
    ParseIntOfIntToString(i);
    ParseIntOfIntToString(j);
  }

  function Occurrences(s: string, sep: char): nat {
    if s == [] then 0 else (if s[0] == sep then 1 else 0) + Occurrences(s[1..], sep)
  }

  /** Python's `sep.join(parts)`. */
  function Join(parts: seq<string>, sep: char): string {
    if parts == [] then []
    else if |parts| == 1 then parts[0]
    else parts[0] + [sep] + Join(parts[1..], sep)
  }

  /**
   * Python's `s.split(sep)` for a one-character separator: the separator-free
   * parts that `sep.join` puts back together into `s`.
   */
  function Split(s: string, sep: char): (parts: seq<string>)
    ensures |parts| == Occurrences(s, sep) + 1
    ensures forall k :: 0 <= k < |parts| ==> sep !in parts[k]
    ensures Join(parts, sep) == s
  {
    if s == [] then [""]
    else
      var rest := Split(s[1..], sep);
      if s[0] == sep then
        assert ([""] + rest)[1..] == rest;
        assert s == [sep] + s[1..];
        [""] + rest
      else
        var parts := [[s[0]] + rest[0]] + rest[1..];
        assert parts[1..] == rest[1..];
        if |rest| == 1 then
          assert s == [s[0]] + s[1..];
          parts
        else
          assert Join(rest, sep) == rest[0] + [sep] + Join(rest[1..], sep);
          assert Join(parts, sep) == [s[0]] + rest[0] + [sep] + Join(rest[1..], sep);
          assert s == [s[0]] + s[1..];
          parts
  }

  lemma {:induction false} SplitWithoutSeparator(s: string, sep: char)
    requires sep !in s
    ensures Split(s, sep) == [s]
  {
    if s != [] {
      SplitWithoutSeparator(s[1..], sep);
      assert [s[0]] + s[1..] == s;
    }
  }

  lemma {:induction false} SplitAfterFirstSeparator(a: string, b: string, sep: char)
    requires sep !in a
    ensures Split(a + [sep] + b, sep) == [a] + Split(b, sep)
  {
    var s := a + [sep] + b;
    if a == [] {
      assert s[1..] == b;
    } else {
      assert s[1..] == a[1..] + [sep] + b;
      SplitAfterFirstSeparator(a[1..], b, sep);
      assert [a[0]] + a[1..] == a;
    }
  }

  /** Joining two separator-free parts with `sep` splits back into the same two parts. */
  /** When `s` splits into two parts, they are the text before and after its one separator. */
  lemma SplitPair(s: string, sep: char)
    requires |Split(s, sep)| == 2
    ensures var parts := Split(s, sep);
      && |parts[0]| < |s| && s[..|parts[0]|] == parts[0] && s[|parts[0]|] == sep
      && s[|parts[0]| + 1..] == parts[1]
  {
    var parts := Split(s, sep);
    assert parts[1..] == [parts[1]];
    assert Join(parts[1..], sep) == parts[1];
    assert s == parts[0] + [sep] + parts[1];
  }

  lemma SplitJoinedPair(a: string, b: string, sep: char)
    requires sep !in a && sep !in b
    ensures Split(a + [sep] + b, sep) == [a, b]
  {
    SplitAfterFirstSeparator(a, b, sep);
    SplitWithoutSeparator(b, sep);
  }
}
