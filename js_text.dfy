/**
 * The parts of ECMAScript's string semantics the analyzer relies on:
 * `trim`, `split` on one character, `includes`, `indexOf`, `startsWith`,
 * `replace` with a string pattern, a case-insensitive suffix test and the
 * global `parseInt`. Strings are sequences of characters.
 */
module JsText {
  import opened Wrappers

  /** WhiteSpace or LineTerminator in ECMAScript: what `trim` removes and `parseInt` skips. */
  predicate IsJsSpace(c: char) {
    var n := c as int;
    if n < 0xA0 then n == 0x20 || 0x09 <= n <= 0x0D
    else n == 0xA0 || n == 0x1680 || 0x2000 <= n <= 0x200A || n == 0x2028 || n == 0x2029
         || n == 0x202F || n == 0x205F || n == 0x3000 || n == 0xFEFF
  }

  predicate AllSpace(s: string) {
    forall i :: 0 <= i < |s| ==> IsJsSpace(s[i])
  }

  /** `s` with its leading white space removed. */
  function TrimStart(s: string): (r: string)
    ensures |r| <= |s| && r == s[|s| - |r|..]
    ensures AllSpace(s[..|s| - |r|])
    ensures r == [] || !IsJsSpace(r[0])
  {
    if s != [] && IsJsSpace(s[0]) then
      var u := s[1..];
      var r := TrimStart(u);
      assert s[..|s| - |r|] == [s[0]] + u[..|u| - |r|];
      AllSpaceAppend([s[0]], u[..|u| - |r|]);
      r
    else s
  }

  /** `s` with its trailing white space removed. */
  function TrimEnd(s: string): (r: string)
    ensures |r| <= |s| && r == s[..|r|]
    ensures AllSpace(s[|r|..])
    ensures r == [] || !IsJsSpace(r[|r| - 1])
  {
    if s != [] && IsJsSpace(s[|s| - 1]) then
      var u := s[..|s| - 1];
      var r := TrimEnd(u);
      assert s[|r|..] == u[|r|..] + [s[|s| - 1]];
      AllSpaceAppend(u[|r|..], [s[|s| - 1]]);
      r
    else s
  }

  lemma AllSpaceAppend(u: string, v: string)
    requires AllSpace(u) && AllSpace(v)
    ensures AllSpace(u + v)
  {
    forall i | 0 <= i < |u + v| ensures IsJsSpace((u + v)[i]) {
      if i < |u| {
        assert (u + v)[i] == u[i];
      } else {
        assert (u + v)[i] == v[i - |u|];
      }
    }
  }

  /**
   * String.prototype.trim: the result is the slice of `s` left when its
   * leading and trailing white space is cut; it neither starts nor ends with
   * white space, and it is empty exactly when `s` is blank.
   */
  function Trim(s: string): (r: string)
    ensures |r| <= |s|
    ensures r == [] || (!IsJsSpace(r[0]) && !IsJsSpace(r[|r| - 1]))
    ensures r == [] <==> AllSpace(s)
    ensures exists a :: TrimmedAt(s, a, r)
  {
    var t := TrimStart(s);
    var r := TrimEnd(t);
    TrimParts(s, t, r);
    r
  }

  /**
   * What trimming both ends amounts to: `t` is `s` without its leading white
   * space and `r` is `t` without its trailing white space.
   */
  lemma TrimParts(s: string, t: string, r: string)
    requires |t| <= |s| && t == s[|s| - |t|..] && AllSpace(s[..|s| - |t|])
    requires t == [] || !IsJsSpace(t[0])
    requires |r| <= |t| && r == t[..|r|] && AllSpace(t[|r|..])
    requires r == [] || !IsJsSpace(r[|r| - 1])
    ensures r == [] || (!IsJsSpace(r[0]) && !IsJsSpace(r[|r| - 1]))
    ensures r == [] <==> AllSpace(s)
    ensures TrimmedAt(s, |s| - |t|, r)
  {
    BlankWhenTrimmedEmpty(s, t, r);
    if r != [] {
      assert r[0] == t[0];
    }
    MiddleSlice(s, t, r);
  }

  /** `r` is the slice of `s` that starts at `a`, and everything around it is white space. */
  predicate TrimmedAt(s: string, a: int, r: string) {
    0 <= a && a + |r| <= |s| && r == s[a..a + |r|]
    && (forall i :: 0 <= i < a ==> IsJsSpace(s[i]))
    && (forall i :: a + |r| <= i < |s| ==> IsJsSpace(s[i]))
  }

  /** A prefix of a suffix of `s` is a slice of `s`, and what lies around it is white space. */
  lemma MiddleSlice(s: string, t: string, r: string)
    requires |t| <= |s| && t == s[|s| - |t|..] && AllSpace(s[..|s| - |t|])
    requires |r| <= |t| && r == t[..|r|] && AllSpace(t[|r|..])
    ensures TrimmedAt(s, |s| - |t|, r)
  {
    var a := |s| - |t|;
    var head := s[..a];
    var tail := t[|r|..];
    forall i | 0 <= i < |r| ensures r[i] == s[a + i] {
      assert r[i] == t[i];
    }
    forall i | 0 <= i < a ensures IsJsSpace(s[i]) {
      assert head[i] == s[i];
    }
    forall i | a + |r| <= i < |s| ensures IsJsSpace(s[i]) {
      assert tail[i - a - |r|] == t[i - a];
    }
  }

  lemma BlankWhenTrimmedEmpty(s: string, t: string, r: string)
    requires |t| <= |s| && t == s[|s| - |t|..] && AllSpace(s[..|s| - |t|])
    requires t == [] || !IsJsSpace(t[0])
    requires |r| <= |t| && r == t[..|r|] && AllSpace(t[|r|..])
    ensures r == [] <==> AllSpace(s)
  {
    var k := |s| - |t|;
    if r == [] {
      assert t == [] by {
        assert t[|r|..] == t;
      }
      assert s[..k] == s;
    } else {
      assert t[0] == r[0];
      assert s[k] == t[0];
    }
  }

  /**
   * String.prototype.split with a one-character separator: the pieces between
   * separators, in order. There is always at least one piece ("" splits to [""]).
   */
  function Split(s: string, sep: char): (r: seq<string>)
    ensures |r| >= 1
    ensures forall i :: 0 <= i < |r| ==> sep !in r[i]
  {
    if s == [] then [""]
    else
      var rest := Split(s[1..], sep);
      if s[0] == sep then [""] + rest
      else [[s[0]] + rest[0]] + rest[1..]
  }

  /** Array.prototype.join with a one-character separator. */
  function Join(parts: seq<string>, sep: char): string
    requires |parts| >= 1
  {
    if |parts| == 1 then parts[0] else parts[0] + [sep] + Join(parts[1..], sep)
  }

  /** Joining the pieces of a split gives back the original text. */
  lemma {:induction false} JoinSplit(s: string, sep: char)
    ensures Join(Split(s, sep), sep) == s
  {
    if s != [] {
      JoinSplit(s[1..], sep);
      var rest := Split(s[1..], sep);
      if s[0] != sep && |rest| > 1 {
        assert ([s[0]] + rest[0]) + [sep] + Join(rest[1..], sep) == [s[0]] + Join(rest, sep);
        assert s == [s[0]] + s[1..];
      } else if s[0] != sep {
        assert s == [s[0]] + s[1..];
      } else {
        assert s == [sep] + s[1..];
      }
    }
  }

  lemma {:induction false} SplitCons(w: string, t: string, sep: char)
    requires sep !in w
    ensures Split(w + [sep] + t, sep) == [w] + Split(t, sep)
  {
    if w == [] {
      assert w + [sep] + t == [sep] + t;
      assert ([sep] + t)[1..] == t;
    } else {
      SplitCons(w[1..], t, sep);
      assert (w + [sep] + t)[1..] == w[1..] + [sep] + t;
      assert [w[0]] + w[1..] == w;
    }
  }

  lemma {:induction false} SplitAlone(w: string, sep: char)
    requires sep !in w
    ensures Split(w, sep) == [w]
  {
    if w != [] {
      SplitAlone(w[1..], sep);
      assert [w[0]] + w[1..] == w;
    }
  }

  /** Text that holds the separator splits into at least two pieces. */
  lemma SplitAtSeparator(s: string, sep: char)
    requires sep in s
    ensures |Split(s, sep)| >= 2
  {
    JoinSplit(s, sep);
  }

  /** Splitting the join of separator-free pieces gives back the pieces. */
  lemma {:induction false} SplitJoin(parts: seq<string>, sep: char)
    requires |parts| >= 1
    requires forall i :: 0 <= i < |parts| ==> sep !in parts[i]
    ensures Split(Join(parts, sep), sep) == parts
  {
    if |parts| == 1 {
      SplitAlone(parts[0], sep);
    } else {
      SplitJoin(parts[1..], sep);
      SplitCons(parts[0], Join(parts[1..], sep), sep);
      assert [parts[0]] + parts[1..] == parts;
    }
  }

  /** `pat` occurs in `s` at index `i`. */
  predicate OccursAt(s: string, pat: string, i: nat) {
    i + |pat| <= |s| && s[i..i + |pat|] == pat
  }

  lemma OccursShift(s: string, pat: string)
    requires s != []
    ensures forall j: nat :: 0 < j ==> OccursAt(s, pat, j) == OccursAt(s[1..], pat, j - 1)
  {
    forall j: nat | 0 < j ensures OccursAt(s, pat, j) == OccursAt(s[1..], pat, j - 1) {
      if j + |pat| <= |s| {
        var a, b := s[j..j + |pat|], s[1..][j - 1..j - 1 + |pat|];
        assert |a| == |b| && forall k :: 0 <= k < |a| ==> a[k] == b[k];
      }
    }
  }

  /** String.prototype.indexOf: the first index at which `pat` occurs, if any. */
  function IndexOf(s: string, pat: string): (r: Option<nat>)
    ensures r.Some? ==> OccursAt(s, pat, r.value)
    ensures r.Some? ==> forall j: nat :: j < r.value ==> !OccursAt(s, pat, j)
    ensures r.None? ==> forall j: nat :: !OccursAt(s, pat, j)
  {
    if |pat| <= |s| && s[..|pat|] == pat then Some(0)
    else if s == [] then None
    else
      OccursShift(s, pat);
      assert !OccursAt(s, pat, 0);
      match IndexOf(s[1..], pat)
      case Some(k) => Some(k + 1)
      case None => None
  }

  /** String.prototype.includes. */
  predicate Contains(s: string, pat: string) {
    IndexOf(s, pat).Some?
  }

  /** String.prototype.startsWith. */
  predicate StartsWith(s: string, prefix: string) {
    |prefix| <= |s| && s[..|prefix|] == prefix
  }

  /** String.prototype.replace with a string pattern: only the first occurrence is replaced. */
  function ReplaceFirst(s: string, pat: string, rep: string): string {
    match IndexOf(s, pat)
    case None => s
    case Some(i) => s[..i] + rep + s[i + |pat|..]
  }

  /** Removing a prefix that `s` starts with leaves exactly the rest of `s`. */
  lemma ReplaceLeadingPrefix(s: string, pat: string)
    requires StartsWith(s, pat)
    ensures ReplaceFirst(s, pat, "") == s[|pat|..]
  {
    assert OccursAt(s, pat, 0);
  }

  /** A text without `pat` in it is left unchanged. */
  lemma ReplaceAbsent(s: string, pat: string, rep: string)
    requires !Contains(s, pat)
    ensures ReplaceFirst(s, pat, rep) == s
  {
  }

  /** The case folding of a regular expression's `i` flag, which only relates ASCII letters here. */
  function LowerAscii(c: char): char {
    if 'A' <= c <= 'Z' then (c as int + 32) as char else c
  }

  /** `s` ends with `suffix`, ignoring ASCII case. */
  predicate EndsWithIgnoreCase(s: string, suffix: string) {
    |suffix| <= |s|
    && forall i :: 0 <= i < |suffix| ==> LowerAscii(s[|s| - |suffix| + i]) == LowerAscii(suffix[i])
  }

  /** The value of a digit in radix up to 36; 36 for a character that is no digit. */
  function DigitValue(c: char): nat {
    if '0' <= c <= '9' then c as nat - '0' as nat
    else if 'a' <= c <= 'z' then c as nat - 'a' as nat + 10
    else if 'A' <= c <= 'Z' then c as nat - 'A' as nat + 10
    else 36
  }

  /** The longest prefix of `s` made of digits of the given radix. */
  function DigitRun(s: string, radix: nat): (r: string)
    ensures |r| <= |s| && r == s[..|r|]
    ensures forall i :: 0 <= i < |r| ==> DigitValue(r[i]) < radix
    ensures |r| < |s| ==> DigitValue(s[|r|]) >= radix
  {
    if s != [] && DigitValue(s[0]) < radix then [s[0]] + DigitRun(s[1..], radix) else []
  }

  lemma DigitRunOfDigits(ds: string)
    requires forall i :: 0 <= i < |ds| ==> IsDecimalDigit(ds[i])
    ensures DigitRun(ds, 10) == ds
  {
  }

  /** The number a run of digits denotes, most significant digit first. */
  function DigitsValue(ds: string, radix: nat): nat {
    if ds == [] then 0 else DigitsValue(ds[..|ds| - 1], radix) * radix + DigitValue(ds[|ds| - 1])
  }

  /**
   * The global parseInt without a radix: leading white space is skipped, one
   * sign is allowed, a `0x`/`0X` prefix selects radix 16, and the longest run
   * of digits that follows is read. None stands for NaN (no digits at all).
   */
  function ParseInt(s: string): (r: Option<int>)
    ensures AllSpace(s) ==> r.None?
  {
    var t := TrimStart(s);
    assert AllSpace(s) ==> t == [] by {
      if t != [] {
        assert t[0] == s[|s| - |t|];
      }
    }
    ParseSigned(t)
  }

  /** The number at the start of a text without leading white space, after one optional sign. */
  function ParseSigned(t: string): Option<int> {
    var signed := t != [] && (t[0] == '-' || t[0] == '+');
    match ParseUnsigned(if signed then t[1..] else t)
    case None => None
    case Some(magnitude) =>
      var m: int := magnitude;
      Some(if signed && t[0] == '-' then -m else m)
  }


  /** The digits after any sign: hexadecimal after a `0x`/`0X` prefix, decimal otherwise. */
  function ParseUnsigned(u: string): Option<nat> {
    if |u| >= 2 && u[0] == '0' && (u[1] == 'x' || u[1] == 'X') then LeadingNumber(u[2..], 16)
    else LeadingNumber(u, 10)
  }

  /** The number the longest leading run of digits denotes; None when there is no digit. */
  function LeadingNumber(s: string, radix: nat): Option<nat> {
    var ds := DigitRun(s, radix);
    if ds == [] then None else Some(DigitsValue(ds, radix))
  }

  predicate IsDecimalDigit(c: char) {
    '0' <= c <= '9'
  }

  function DigitChar(d: nat): char
    requires d < 10
  {
    ['0', '1', '2', '3', '4', '5', '6', '7', '8', '9'][d]
  }

  /** The decimal numeral of `n`, as JavaScript prints a non-negative integer. */
  function Decimal(n: nat): (r: string)
    ensures r != [] && forall i :: 0 <= i < |r| ==> IsDecimalDigit(r[i])
    ensures n > 0 ==> r[0] != '0'
    ensures |r| == 1 <==> n < 10
  {
    if n < 10 then [DigitChar(n)] else Decimal(n / 10) + [DigitChar(n % 10)]
  }

  /** A non-empty run of decimal digits parses to the number it denotes (leading zeros allowed). */
  lemma ParseDigits(ds: string)
    requires ds != [] && forall i :: 0 <= i < |ds| ==> IsDecimalDigit(ds[i])
    ensures ParseInt(ds) == Some(DigitsValue(ds, 10))
  {
    UnsignedDecimal(ds);
    ParseUnsignedText(ds, DigitsValue(ds, 10));
  }

  /** A text that starts with a digit, so with neither white space nor a sign, parses as its unsigned reading. */
  lemma ParseUnsignedText(s: string, m: nat)
    requires s != [] && IsDecimalDigit(s[0])
    requires ParseUnsigned(s) == Some(m)
    ensures ParseInt(s) == Some(m)
  {
    assert !IsJsSpace(s[0]);
    assert TrimStart(s) == s;
  }

  /** A run of decimal digits reads as the number it denotes, with no hexadecimal prefix in the way. */
  lemma UnsignedDecimal(ds: string)
    requires ds != [] && forall i :: 0 <= i < |ds| ==> IsDecimalDigit(ds[i])
    ensures ParseUnsigned(ds) == Some(DigitsValue(ds, 10))
  {
    if |ds| >= 2 {
      assert IsDecimalDigit(ds[1]);
    }
    DigitRunOfDigits(ds);
  }

  /** Leading white space is skipped up to the first character that is not white space. */
  lemma {:induction false} TrimStartSkips(ws: string, x: string)
    requires AllSpace(ws) && (x == [] || !IsJsSpace(x[0]))
    ensures TrimStart(ws + x) == x
  {
    if ws == [] {
      assert ws + x == x;
    } else {
      assert (ws + x)[0] == ws[0];
      assert (ws + x)[1..] == ws[1..] + x;
      assert AllSpace(ws[1..]) by {
        forall i | 0 <= i < |ws| - 1 ensures IsJsSpace(ws[1..][i]) {
          assert ws[1..][i] == ws[i + 1];
        }
      }
      TrimStartSkips(ws[1..], x);
    }
  }

  /** parseInt skips leading white space before the first character that is not white space. */
  lemma ParseAfterSpace(ws: string, x: string)
    requires AllSpace(ws) && x != [] && !IsJsSpace(x[0])
    ensures ParseInt(ws + x) == ParseInt(x)
  {
    TrimStartSkips(ws, x);
    TrimStartSkips([], x);
    assert [] + x == x;
    assert ParseInt(ws + x) == ParseSigned(x);
  }

  /** One sign before a run of digits: `-` negates the number, `+` keeps it. */
  lemma ParseSign(sign: char, ds: string, m: nat)
    requires sign == '-' || sign == '+'
    requires ds != [] && IsDecimalDigit(ds[0]) && ParseUnsigned(ds) == Some(m)
    ensures ParseInt([sign] + ds) == Some(if sign == '-' then -(m as int) else m)
  {
    var x := [sign] + ds;
    assert !IsJsSpace(sign);
    TrimStartSkips([], x);
    assert [] + x == x;
    assert x[1..] == ds;
  }

  /** parseInt skips leading white space and reads the decimal digits that follow. */
  lemma ParseSpacedDecimal(ws: string, ds: string)
    requires AllSpace(ws)
    requires ds != [] && forall i :: 0 <= i < |ds| ==> IsDecimalDigit(ds[i])
    ensures ParseInt(ws + ds) == Some(DigitsValue(ds, 10))
  {
    var m := DigitsValue(ds, 10);
    assert IsDecimalDigit(ds[0]) && ParseUnsigned(ds) == Some(m) by {
      UnsignedDecimal(ds);
    }
    ParseAfterSpace(ws, ds);
    ParseUnsignedText(ds, m);
  }

  /**
   * parseInt skips leading white space and reads one sign before a decimal
   * numeral: a `-` negates the number, a `+` keeps it.
   */
  lemma ParseSignedDecimal(ws: string, sign: char, n: nat)
    requires AllSpace(ws) && (sign == '-' || sign == '+')
    ensures ParseInt(ws + ([sign] + Decimal(n))) == Some(if sign == '-' then -(n as int) else n)
  {
    var ds := Decimal(n);
    assert IsDecimalDigit(ds[0]) && ParseUnsigned(ds) == Some(n) by {
      UnsignedDecimal(ds);
      DecimalValue(n);
    }
    var x := [sign] + ds;
    assert !IsJsSpace(x[0]);
    ParseAfterSpace(ws, x);
    ParseSign(sign, ds, n);
  }

  /** The numeral of a number denotes that number. */
  lemma {:induction false} DecimalValue(n: nat)
    ensures DigitsValue(Decimal(n), 10) == n
  {
    if n >= 10 {
      DecimalValue(n / 10);
      var d := Decimal(n);
      assert d[..|d| - 1] == Decimal(n / 10);
    }
  }

  /**
   * parseInt reads the leading numeral and ignores everything from the
   * first character that is no digit: `12abc` parses to 12. Only a lone `0`
   * followed by `x` or `X` would switch to hexadecimal instead.
   */
  lemma ParseLeadingNumeral(n: nat, rest: string)
    requires rest == [] || !IsDecimalDigit(rest[0])
    requires n > 0 || rest == [] || (rest[0] != 'x' && rest[0] != 'X')
    ensures ParseInt(Decimal(n) + rest) == Some(n)
  {
    var ds := Decimal(n);
    var s := ds + rest;
    DigitRunStops(ds, rest);
    DecimalValue(n);
    assert ParseUnsigned(s) == Some(n) by {
      if n == 0 {
        assert ds == ['0'];
      }
    }
    ParseUnsignedText(s, n);
  }

  /** The run of decimal digits stops where the digits do. */
  lemma {:induction false} DigitRunStops(ds: string, rest: string)
    requires forall i :: 0 <= i < |ds| ==> IsDecimalDigit(ds[i])
    requires rest == [] || !IsDecimalDigit(rest[0])
    ensures DigitRun(ds + rest, 10) == ds
  {
    if ds != [] {
      DigitRunStops(ds[1..], rest);
      assert (ds + rest)[1..] == ds[1..] + rest;
      assert [ds[0]] + ds[1..] == ds;
    }
  }

  /** Printing a number and parsing it back gives the number. */
  lemma ParseDecimal(n: nat)
    ensures ParseInt(Decimal(n)) == Some(n)
  {
    ParseDigits(Decimal(n));
    DecimalValue(n);
  }
}
