/** The JavaScript built-ins the front end leans on, stated over Dafny values:
    `String.prototype.trim`, `toLowerCase`, `includes`, `split`, `join`,
    `padStart`, `parseInt(s, 10)`, number-to-string for integers, and the
    truncating `%` on integers and reals. JavaScript's `null`/`undefined`
    are `None`, and a `NaN` produced by `parseInt` is `None` as well. */
module JsText {

  datatype Option<+T> = None | Some(value: T)

  // ---------------------------------------------------------------------
  // Whitespace and trim

  /** The characters `trim` and `parseInt` skip: ECMAScript WhiteSpace and
      LineTerminator code points. */
  predicate IsJsSpace(c: char) {
    c == ' ' || c == '\t' || c == '\n' || c == '\r' || c == '\U{000B}' || c == '\U{000C}'
    || c == '\U{00A0}' || c == '\U{1680}' || ('\U{2000}' <= c <= '\U{200A}')
    || c == '\U{2028}' || c == '\U{2029}' || c == '\U{202F}' || c == '\U{205F}'
    || c == '\U{3000}' || c == '\U{FEFF}'
  }

  /** Drops the leading run of whitespace. */
  function TrimStart(s: string): (r: string)
    ensures |r| <= |s| && r == s[|s| - |r|..]
    ensures forall i :: 0 <= i < |s| - |r| ==> IsJsSpace(s[i])
    ensures r == [] || !IsJsSpace(r[0])
  {
    if s != [] && IsJsSpace(s[0]) then
      var r := TrimStart(s[1..]);
      TrimStartStep(s, r);
      r
    else s
  }

  /** One leading space more in front of a trimmed tail. */
  lemma TrimStartStep(s: string, r: string)
    requires s != [] && IsJsSpace(s[0])
    requires |r| <= |s| - 1 && r == s[1..][|s| - 1 - |r|..]
    requires forall i :: 0 <= i < |s| - 1 - |r| ==> IsJsSpace(s[1..][i])
    ensures r == s[|s| - |r|..]
    ensures forall i :: 0 <= i < |s| - |r| ==> IsJsSpace(s[i])
  {
    assert forall i :: 1 <= i < |s| ==> s[i] == s[1..][i - 1];
  }

  /** A string that starts with a non-space is its own `TrimStart`. */
  lemma TrimStartStops(s: string)
    requires s != [] && !IsJsSpace(s[0])
    ensures TrimStart(s) == s
  {
  }

  /** Drops the trailing run of whitespace. */
  function TrimEnd(s: string): (r: string)
    ensures |r| <= |s| && r == s[..|r|]
    ensures forall i :: |r| <= i < |s| ==> IsJsSpace(s[i])
    ensures r == [] || !IsJsSpace(r[|r| - 1])
  {
    if s != [] && IsJsSpace(s[|s| - 1]) then TrimEnd(s[..|s| - 1]) else s
  }

  /** `needle` occurs in `hay` starting at position `k`. */
  predicate OccursAt(hay: string, needle: string, k: int) {
    0 <= k <= |hay| - |needle| && hay[k..k + |needle|] == needle
  }

  /** `s.trim()`: neither end of the result is whitespace. */
  function Trim(s: string): (r: string)
    ensures r == [] || (!IsJsSpace(r[0]) && !IsJsSpace(r[|r| - 1]))
  {
    var t := TrimStart(s);
    var r := TrimEnd(t);
    assert r == [] || r[0] == t[0];
    r
  }

  /** `r` occurs in `s` at `k`, and everything before and after it is
      whitespace. */
  predicate CutAt(s: string, r: string, k: int) {
    && OccursAt(s, r, k)
    && (forall i :: 0 <= i < k ==> IsJsSpace(s[i]))
    && (forall i :: k + |r| <= i < |s| ==> IsJsSpace(s[i]))
  }

  /** `Trim(s)` is `s` with its leading and trailing whitespace cut off. */
  lemma TrimCutsEnds(s: string)
    ensures exists k :: CutAt(s, Trim(s), k)
  {
    var t := TrimStart(s);
    CutPrefixOfSuffix(s, t, TrimEnd(t));
    assert CutAt(s, Trim(s), |s| - |t|);
  }

  /** A whitespace-bounded prefix of a whitespace-bounded suffix of `s` is
      cut out of `s` where the suffix starts. */
  lemma CutPrefixOfSuffix(s: string, t: string, r: string)
    requires |t| <= |s| && t == s[|s| - |t|..]
    requires forall i :: 0 <= i < |s| - |t| ==> IsJsSpace(s[i])
    requires |r| <= |t| && r == t[..|r|]
    requires forall i :: |r| <= i < |t| ==> IsJsSpace(t[i])
    ensures CutAt(s, r, |s| - |t|)
  {
    var k := |s| - |t|;
    assert forall i :: 0 <= i < |t| ==> t[i] == s[k + i];
    assert r == s[k..k + |r|];
  }

  /** Trimming an already trimmed string changes nothing. */
  lemma TrimIdempotent(s: string)
    ensures Trim(Trim(s)) == Trim(s)
  {
    var r := Trim(s);
    assert TrimStart(r) == r;
    assert TrimEnd(r) == r;
  }

  /** A string made of whitespace only trims to the empty string, and a
      string with any non-whitespace character does not. */
  lemma {:induction false} TrimEmptyIffBlank(s: string)
    ensures Trim(s) == [] <==> forall i :: 0 <= i < |s| ==> IsJsSpace(s[i])
  {
    var t := TrimStart(s);
    if Trim(s) == [] {
      forall i | 0 <= i < |s| ensures IsJsSpace(s[i]) {
        if i >= |s| - |t| {
          assert s[i] == t[i - (|s| - |t|)];
        }
      }
    } else {
      var r := Trim(s);
      assert r == TrimEnd(t) && r == t[..|r|];
      assert !IsJsSpace(t[0]) && s[|s| - |t|] == t[0];
    }
  }

  // ---------------------------------------------------------------------
  // Case and substring search

  /** `toLowerCase` restricted to the ASCII letters. */
  function LowerChar(c: char): (r: char)
    ensures 'A' <= c <= 'Z' ==> r as int == c as int + 32
    ensures !('A' <= c <= 'Z') ==> r == c
  {
    if 'A' <= c <= 'Z' then (c as int + 32) as char else c
  }

  function ToLower(s: string): (r: string)
    ensures |r| == |s| && forall i :: 0 <= i < |s| ==> r[i] == LowerChar(s[i])
  {
    seq(|s|, i requires 0 <= i < |s| => LowerChar(s[i]))
  }

  /** `hay.includes(needle)`, computed by scanning start positions. */
  function Includes(hay: string, needle: string): bool
    decreases |hay|
  {
    if |needle| > |hay| then false
    else if hay[..|needle|] == needle then true
    else Includes(hay[1..], needle)
  }

  /** `Includes` holds exactly when `needle` occurs at some position. */
  lemma {:induction false} IncludesIff(hay: string, needle: string)
    ensures Includes(hay, needle) <==> exists k :: OccursAt(hay, needle, k)
    decreases |hay|
  {
    if |needle| > |hay| {
    } else if hay[..|needle|] == needle {
      assert OccursAt(hay, needle, 0);
    } else {
      IncludesIff(hay[1..], needle);
      if Includes(hay, needle) {
        var k :| OccursAt(hay[1..], needle, k);
        assert hay[1..][k..k + |needle|] == hay[k + 1..k + 1 + |needle|];
        assert OccursAt(hay, needle, k + 1);
      }
      if exists k :: OccursAt(hay, needle, k) {
        var k :| OccursAt(hay, needle, k);
        assert k != 0;
        assert hay[1..][k - 1..k - 1 + |needle|] == hay[k..k + |needle|];
        assert OccursAt(hay[1..], needle, k - 1);
      }
    }
  }

  /** The empty search term occurs in every string. */
  lemma EmptyIncluded(hay: string)
    ensures Includes(hay, "")
  {
    assert hay[..0] == "";
  }

  // ---------------------------------------------------------------------
  // split and join

  /** `s.split(sep)` for a one-character separator. */
  function Split(s: string, sep: char): (parts: seq<string>)
    ensures |parts| >= 1
    ensures forall i, j :: 0 <= i < |parts| && 0 <= j < |parts[i]| ==> parts[i][j] != sep
    decreases |s|
  {
    if s == [] then [""]
    else
      var rest := Split(s[1..], sep);
      if s[0] == sep then [""] + rest
      else [[s[0]] + rest[0]] + rest[1..]
  }

  /** `parts.join(sep)`. */
  function Join(parts: seq<string>, sep: string): string
  {
    if parts == [] then ""
    else if |parts| == 1 then parts[0]
    else parts[0] + sep + Join(parts[1..], sep)
  }

  /** Joining two non-empty lists puts exactly one separator between the
      two joined halves; an empty list adds nothing. */
  lemma {:induction false} JoinAppend(xs: seq<string>, ys: seq<string>, sep: string)
    ensures xs == [] ==> Join(xs + ys, sep) == Join(ys, sep)
    ensures ys == [] ==> Join(xs + ys, sep) == Join(xs, sep)
    ensures xs != [] && ys != [] ==> Join(xs + ys, sep) == Join(xs, sep) + sep + Join(ys, sep)
    decreases |xs|
  {
    if xs == [] {
      assert xs + ys == ys;
    } else if ys == [] {
      assert xs + ys == xs;
    } else {
      assert (xs + ys)[0] == xs[0] && (xs + ys)[1..] == xs[1..] + ys;
      if |xs| > 1 {
        JoinAppend(xs[1..], ys, sep);
        assert Join(xs + ys, sep) == xs[0] + sep + (Join(xs[1..], sep) + sep + Join(ys, sep));
      } else {
        assert xs[1..] + ys == ys;
      }
    }
  }

  /** Four parts joined: each separator sits between two neighbours. */
  lemma JoinFour(a: string, b: string, c: string, d: string, sep: string)
    ensures Join([a, b, c, d], sep) == a + sep + b + sep + c + sep + d
  {
    var ps := [a, b, c, d];
    assert ps[1..] == [b, c, d];
    assert [b, c, d][1..] == [c, d];
    assert [c, d][1..] == [d];
    assert Join([c, d], sep) == c + sep + d;
    assert Join([b, c, d], sep) == b + sep + (c + sep + d);
  }

  /** Splitting and joining back with the same separator gives the input. */
  lemma {:induction false} JoinSplit(s: string, sep: char)
    ensures Join(Split(s, sep), [sep]) == s
    decreases |s|
  {
    if s != [] {
      var rest := Split(s[1..], sep);
      JoinSplit(s[1..], sep);
      if s[0] != sep {
        if |rest| == 1 {
          assert Split(s, sep) == [[s[0]] + rest[0]];
        } else {
          assert Split(s, sep)[1..] == rest[1..];
        }
      }
    }
  }

  /** A string with no separator splits into one part, itself. */
  lemma {:induction false} SplitNoSep(s: string, sep: char)
    requires forall i :: 0 <= i < |s| ==> s[i] != sep
    ensures Split(s, sep) == [s]
    decreases |s|
  {
    if s != [] {
      SplitNoSep(s[1..], sep);
      assert [s[0]] + s[1..] == s;
    }
  }

  /** Splitting `a + [sep] + b` where `a` has no separator yields `a`
      followed by the parts of `b`. */
  lemma {:induction false} SplitAtFirst(a: string, sep: char, b: string)
    requires forall i :: 0 <= i < |a| ==> a[i] != sep
    ensures Split(a + [sep] + b, sep) == [a] + Split(b, sep)
    decreases |a|
  {
    if a == [] {
      assert a + [sep] + b == [sep] + b;
      assert ([sep] + b)[1..] == b;
    } else {
      SplitAtFirst(a[1..], sep, b);
      assert (a + [sep] + b)[1..] == a[1..] + [sep] + b;
      assert [a[0]] + a[1..] == a;
    }
  }

  /** The first two parts of `a + [sep] + b + rest`, where neither `a` nor
      `b` holds the separator and `rest` is empty or starts with it. */
  lemma {:induction false} SplitFirstTwo(a: string, sep: char, b: string, rest: string)
    requires forall i :: 0 <= i < |a| ==> a[i] != sep
    requires forall i :: 0 <= i < |b| ==> b[i] != sep
    requires rest == [] || rest[0] == sep
    ensures var parts := Split(a + [sep] + b + rest, sep); |parts| >= 2 && parts[0] == a && parts[1] == b
  {
    assert a + [sep] + b + rest == a + [sep] + (b + rest);
    SplitAtFirst(a, sep, b + rest);
    if rest == [] {
      assert b + rest == b;
      SplitNoSep(b, sep);
    } else {
      assert b + rest == b + [sep] + rest[1..];
      SplitAtFirst(b, sep, rest[1..]);
    }
  }

  /** `s.replace(from, to)` with a one-character string pattern: only the
      first occurrence is replaced. */
  function ReplaceFirst(s: string, from: char, to: char): (r: string)
    ensures |r| == |s|
  {
    if s == [] then []
    else if s[0] == from then [to] + s[1..]
    else [s[0]] + ReplaceFirst(s[1..], from, to)
  }

  /** Without an occurrence the text is unchanged. */
  lemma {:induction false} ReplaceFirstAbsent(s: string, from: char, to: char)
    requires forall i :: 0 <= i < |s| ==> s[i] != from
    ensures ReplaceFirst(s, from, to) == s
  {
    if s != [] {
      ReplaceFirstAbsent(s[1..], from, to);
    }
  }

  /** Exactly the character at the first occurrence is replaced. */
  lemma {:induction false} ReplaceFirstAt(s: string, from: char, to: char, k: int)
    requires 0 <= k < |s| && s[k] == from
    requires forall i :: 0 <= i < k ==> s[i] != from
    ensures ReplaceFirst(s, from, to) == s[..k] + [to] + s[k + 1..]
  {
    if k > 0 {
      var t := s[1..];
      ReplaceFirstAt(t, from, to, k - 1);
      assert s[..k] == [s[0]] + t[..k - 1];
      assert s[k + 1..] == t[k..];
    }
  }

  // ---------------------------------------------------------------------
  // Digits, number-to-string and parseInt

  predicate IsDigit(c: char) { '0' <= c <= '9' }

  function DigitChar(d: nat): (c: char)
    requires d < 10
    ensures IsDigit(c) && c as int - '0' as int == d
  {
    ('0' as int + d) as char
  }

  function DigitValue(c: char): (d: nat)
    requires IsDigit(c)
    ensures d < 10
  {
    c as int - '0' as int
  }

  /** The decimal text of a natural number, without leading zeros. */
  function NatToString(n: nat): (s: string)
    ensures s != [] && forall i :: 0 <= i < |s| ==> IsDigit(s[i])
  {
    if n < 10 then [DigitChar(n)] else NatToString(n / 10) + [DigitChar(n % 10)]
  }

  /** `String(n)` for an integer `n`. */
  function IntToString(n: int): string
  {
    if n < 0 then "-" + NatToString(-n) else NatToString(n)
  }

  /** The value of a run of decimal digits. */
  function DigitsValue(ds: string): nat
    requires forall i :: 0 <= i < |ds| ==> IsDigit(ds[i])
  {
    if ds == [] then 0
    else DigitsValue(ds[..|ds| - 1]) * 10 + DigitValue(ds[|ds| - 1])
  }

  /** The longest prefix of `s` made of decimal digits. */
  function LeadingDigits(s: string): (ds: string)
    ensures |ds| <= |s| && ds == s[..|ds|]
    ensures forall i :: 0 <= i < |ds| ==> IsDigit(ds[i])
    ensures |ds| < |s| ==> !IsDigit(s[|ds|])
  {
    if s != [] && IsDigit(s[0]) then [s[0]] + LeadingDigits(s[1..]) else []
  }

  /** `parseInt(s, 10)` on text: skip leading whitespace, read an optional
      sign, then the longest run of digits; no digits means `NaN`. */
  function ParseInt(s: string): Option<int>
  {
    ParseSigned(TrimStart(s))
  }

  /** The sign-and-digits part of `parseInt`, after the whitespace. */
  function ParseSigned(t: string): Option<int>
  {
    if t != [] && t[0] == '-' then
      match ParseDigits(t[1..])
      case None => None
      case Some(v) => Some(-v)
    else if t != [] && t[0] == '+' then ParseDigits(t[1..])
    else ParseDigits(t)
  }

  function ParseDigits(b: string): Option<int>
  {
    var ds := LeadingDigits(b);
    if ds == [] then None else Some(DigitsValue(ds) as int)
  }

  lemma {:induction false} DigitsOfNat(n: nat)
    ensures DigitsValue(NatToString(n)) == n
  {
    if n >= 10 {
      DigitsOfNat(n / 10);
      var s := NatToString(n);
      assert s[..|s| - 1] == NatToString(n / 10);
    }
  }

  lemma {:induction false} AllDigitsLeading(s: string)
    requires forall i :: 0 <= i < |s| ==> IsDigit(s[i])
    ensures LeadingDigits(s) == s
  {
    if s != [] {
      AllDigitsLeading(s[1..]);
    }
  }

  /** Whatever follows the digits is ignored: digits then a non-digit. */
  lemma {:induction false} LeadingDigitsStop(ds: string, rest: string)
    requires forall i :: 0 <= i < |ds| ==> IsDigit(ds[i])
    requires rest == [] || !IsDigit(rest[0])
    ensures LeadingDigits(ds + rest) == ds
  {
    if ds != [] {
      assert (ds + rest)[1..] == ds[1..] + rest;
      LeadingDigitsStop(ds[1..], rest);
    }
  }

  /** A digit is neither whitespace nor a sign. */
  lemma DigitNotSpace(c: char)
    requires IsDigit(c)
    ensures !IsJsSpace(c) && c != '-' && c != '+'
  {
  }

  /** `parseInt` of text that starts with a digit reads its leading digits. */
  lemma ParseFromDigit(s: string)
    requires s != [] && IsDigit(s[0])
    ensures LeadingDigits(s) != []
    ensures ParseInt(s) == Some(DigitsValue(LeadingDigits(s)) as int)
  {
    DigitNotSpace(s[0]);
    TrimStartStops(s);
    assert ParseSigned(s) == ParseDigits(s);
  }

  lemma ParseUnsignedDigits(ds: string)
    requires ds != [] && forall i :: 0 <= i < |ds| ==> IsDigit(ds[i])
    ensures ParseInt(ds) == Some(DigitsValue(ds) as int)
  {
    ParseFromDigit(ds);
    AllDigitsLeading(ds);
  }

  /** `parseInt` reads a run of digits and ignores what follows it. */
  lemma ParseDigitPrefix(ds: string, rest: string)
    requires ds != [] && forall i :: 0 <= i < |ds| ==> IsDigit(ds[i])
    requires rest == [] || !IsDigit(rest[0])
    ensures ParseInt(ds + rest) == Some(DigitsValue(ds) as int)
  {
    var s := ds + rest;
    assert s[0] == ds[0];
    ParseFromDigit(s);
    LeadingDigitsStop(ds, rest);
  }

  /** `parseInt` of '-' and then digits negates the digits. */
  lemma ParseFromMinus(b: string)
    requires ParseDigits(b).Some?
    ensures ParseInt("-" + b) == Some(-ParseDigits(b).value)
  {
    var t := "-" + b;
    assert t[0] == '-' && t[1..] == b;
    TrimStartStops(t);
  }

  /** A run of digits reads as its value. */
  lemma ParseAllDigits(ds: string)
    requires ds != [] && forall i :: 0 <= i < |ds| ==> IsDigit(ds[i])
    ensures ParseDigits(ds) == Some(DigitsValue(ds) as int)
  {
    AllDigitsLeading(ds);
  }

  /** `parseInt(String(n), 10) == n` for every integer. */
  lemma ParseIntToString(n: int)
    ensures ParseInt(IntToString(n)) == Some(n)
  {
    if n < 0 {
      ParseNegativeText(n);
    } else {
      ParseNatText(n);
    }
  }

  lemma ParseNatText(n: nat)
    ensures ParseInt(IntToString(n)) == Some(n)
  {
    DigitsOfNat(n);
    ParseUnsignedDigits(NatToString(n));
  }

  lemma ParseNegativeText(n: int)
    requires n < 0
    ensures ParseInt(IntToString(n)) == Some(n)
  {
    ParseMinusNat(IntToString(n), -n);
  }

  lemma ParseMinusNat(s: string, m: nat)
    requires s == "-" + NatToString(m)
    ensures ParseInt(s) == Some(-(m as int))
  {
    var ds := NatToString(m);
    DigitsOfNat(m);
    ParseAllDigits(ds);
    ParseFromMinus(ds);
  }

  /** `s.padStart(2, '0')`. */
  function PadStart2(s: string): (r: string)
    ensures |r| >= 2 && |r| >= |s|
    ensures r[|r| - |s|..] == s
    ensures forall i :: 0 <= i < |r| - |s| ==> r[i] == '0'
  {
    if |s| >= 2 then s else if |s| == 1 then "0" + s else "00"
  }

  // ---------------------------------------------------------------------
  // Truncating remainder

  /** JavaScript's `a % b` on integers: `a` minus a multiple of `b`, smaller
      than `b` in size and carrying the sign of `a` (the quotient truncates
      toward zero). */
  function JsRem(a: int, b: int): (r: int)
    requires b > 0
    ensures (a - r) % b == 0
    ensures -b < r < b
    ensures a >= 0 ==> 0 <= r
    ensures a < 0 ==> r <= 0
  {
    if a >= 0 then
      assert a - a % b == b * (a / b);
      MultipleRem(a / b, b);
      a % b
    else
      var q := (-a) / b;
      assert -a == b * q + (-a) % b;
      assert a + (-a) % b == b * -q;
      MultipleRem(-q, b);
      -((-a) % b)
  }

  /** A multiple of `b` leaves no remainder. */
  lemma MultipleRem(k: int, b: int)
    requires b > 0
    ensures (b * k) % b == 0
  {
    var d, m := (b * k) / b, (b * k) % b;
    var e := k - d;
    assert m == b * e;
    if e >= 1 {
      assert b * e == b + b * (e - 1);
    } else if e <= -1 {
      assert b * e == -b + b * (e + 1);
    }
  }

  /** `hour % 12 || 12`, the 12-hour clock hour: the remainder truncates
      toward zero, and a zero remainder (also `-0`) is falsy, so it becomes 12. */
  function Hour12(hour: int): (h: int)
    ensures (hour - h) % 12 == 0
    ensures hour >= 0 ==> 1 <= h <= 12
    ensures -12 < h <= 12 && h != 0
  {
    var r := JsRem(hour, 12);
    if r == 0 then 12 else r
  }

  /** JavaScript's `r % 1` on reals: `r` minus `r` truncated towards zero. */
  function JsFrac(r: real): (f: real)
    ensures r >= 0.0 ==> 0.0 <= f < 1.0 && f == r - r.Floor as real
    ensures r < 0.0 ==> -1.0 < f <= 0.0
  {
    if r >= 0.0 then r - r.Floor as real else r + (-r).Floor as real
  }
}
