/** String operations the JavaScript code relies on: `trim`, `split` on one
    character, `join`, the code-point order used by database sorts, and
    `parseInt` and `Number` on decimal text. */
module Text {

  import opened Js

  /** The whitespace removed by `String.prototype.trim` (the ASCII and
      Latin-1/BOM members of the class; see README). */
  predicate IsSpace(c: char) {
    c == ' ' || c == '\t' || c == '\n' || c == '\r' || c == '\U{0B}' || c == '\U{0C}'
    || c == '\U{A0}' || c == '\U{FEFF}'
  }

  /** Neither end of `s` is whitespace. */
  predicate IsTrimmed(s: string) {
    s == [] || (!IsSpace(s[0]) && !IsSpace(s[|s| - 1]))
  }

  /** Every character of `s` is whitespace (so `s.trim()` is empty). */
  predicate IsBlank(s: string) {
    forall i :: 0 <= i < |s| ==> IsSpace(s[i])
  }

  /** Drops the leading whitespace: the result is a suffix of `s` that is
      empty or starts with a non-space character. */
  function TrimStart(s: string): (r: string)
    ensures |r| <= |s|
    ensures r != [] ==> !IsSpace(r[0])
    decreases |s|
  {
    if s != [] && IsSpace(s[0]) then TrimStart(s[1..]) else s
  }

  /** What `TrimStart` keeps is a suffix of `s`. */
  lemma {:induction false} TrimStartIsSuffix(s: string)
    ensures TrimStart(s) == s[|s| - |TrimStart(s)|..]
    decreases |s|
  {
    if s != [] && IsSpace(s[0]) {
      TrimStartIsSuffix(s[1..]);
      assert s[1..][|s| - 1 - |TrimStart(s)|..] == s[|s| - |TrimStart(s)|..];
    }
  }

  /** What `TrimStart` drops is whitespace. */
  lemma {:induction false} TrimStartDropsSpace(s: string)
    ensures IsBlank(s[..|s| - |TrimStart(s)|])
    decreases |s|
  {
    if s != [] && IsSpace(s[0]) {
      TrimStartDropsSpace(s[1..]);
      var n := |s| - |TrimStart(s)|;
      assert s[..n] == [s[0]] + s[1..][..n - 1];
    }
  }

  /** Drops the trailing whitespace: the result is a prefix of `s` that is
      empty or ends with a non-space character. */
  function TrimEnd(s: string): (r: string)
    ensures |r| <= |s|
    ensures r != [] ==> !IsSpace(r[|r| - 1])
    decreases |s|
  {
    if s != [] && IsSpace(s[|s| - 1]) then TrimEnd(s[..|s| - 1]) else s
  }

  /** What `TrimEnd` keeps is a prefix of `s`. */
  lemma {:induction false} TrimEndIsPrefix(s: string)
    ensures TrimEnd(s) == s[..|TrimEnd(s)|]
    decreases |s|
  {
    if s != [] && IsSpace(s[|s| - 1]) {
      TrimEndIsPrefix(s[..|s| - 1]);
      assert s[..|s| - 1][..|TrimEnd(s)|] == s[..|TrimEnd(s)|];
    }
  }

  /** What `TrimEnd` drops is whitespace. */
  lemma {:induction false} TrimEndDropsSpace(s: string)
    ensures IsBlank(s[|TrimEnd(s)|..])
    decreases |s|
  {
    if s != [] && IsSpace(s[|s| - 1]) {
      var init := s[..|s| - 1];
      TrimEndDropsSpace(init);
      var n := |TrimEnd(s)|;
      assert s[n..] == init[n..] + [s[|s| - 1]];
    }
  }

  /** Where the trimmed text starts in `s`: after the leading whitespace. */
  function TrimOffset(s: string): (a: nat)
    ensures a <= |s|
  {
    |s| - |TrimStart(s)|
  }

  /** `s.trim()`: no whitespace at either end (see `TrimIsSlice` for what it
      keeps and drops). */
  function Trim(s: string): (r: string)
    ensures IsTrimmed(r) && |r| <= |s|
  {
    var t := TrimStart(s);
    var r := TrimEnd(t);
    TrimEndIsPrefix(t);
    assert r != [] ==> r[0] == t[0];
    r
  }

  /** The trim of `s` is a contiguous slice of `s`, and everything cut away
      on either side is whitespace. */
  lemma TrimIsSlice(s: string)
    ensures TrimOffset(s) + |Trim(s)| <= |s|
    ensures Trim(s) == s[TrimOffset(s)..TrimOffset(s) + |Trim(s)|]
    ensures IsBlank(s[..TrimOffset(s)]) && IsBlank(s[TrimOffset(s) + |Trim(s)|..])
  {
    var t := TrimStart(s);
    var r := TrimEnd(t);
    var a := TrimOffset(s);
    TrimStartIsSuffix(s);
    TrimEndIsPrefix(t);
    assert t == s[a..];
    SliceOfSuffix(s, a, |r|);
    TrimStartDropsSpace(s);
    TrimEndDropsSpace(t);
  }

  /** Slicing a suffix is slicing the whole. */
  lemma SliceOfSuffix(s: string, a: nat, n: nat)
    requires a + n <= |s|
    ensures s[a..][..n] == s[a..a + n]
    ensures s[a..][n..] == s[a + n..]
  {
  }

  lemma {:induction false} TrimStartOfClean(s: string)
    requires s == [] || !IsSpace(s[0])
    ensures TrimStart(s) == s
  {
  }

  /** Trimming an already-trimmed string changes nothing. */
  lemma {:induction false} TrimOfTrimmed(s: string)
    requires IsTrimmed(s)
    ensures Trim(s) == s
  {
    TrimStartOfClean(s);
  }

  /** One leading space (as produced by joining with ", ") is removed by trim. */
  lemma {:induction false} TrimAfterSpace(s: string)
    requires IsTrimmed(s)
    ensures Trim([' '] + s) == s
  {
    assert ([' '] + s)[1..] == s;
    TrimStartOfClean(s);
  }

  /** The trim of `s` is empty exactly when `s` is blank. */
  lemma {:induction false} TrimEmptyIffBlank(s: string)
    ensures Trim(s) == "" <==> IsBlank(s)
  {
    var a := TrimOffset(s);
    TrimIsSlice(s);
    if Trim(s) == "" {
      assert s == s[..a] + s[a..];
      BlankConcat(s[..a], s[a..]);
    }
  }

  lemma BlankConcat(x: string, y: string)
    requires IsBlank(x) && IsBlank(y)
    ensures IsBlank(x + y)
  {
    forall i | 0 <= i < |x + y|
      ensures IsSpace((x + y)[i])
    {
      if i >= |x| {
        assert (x + y)[i] == y[i - |x|];
      }
    }
  }

  /** Trimming only removes characters: one absent from `s` is absent from `Trim(s)`. */
  lemma TrimKeepsAbsent(s: string, c: char)
    requires c !in s
    ensures c !in Trim(s)
  {
    var t := TrimStart(s);
    TrimStartIsSuffix(s);
    assert c !in t;
    TrimEndIsPrefix(t);
  }

  /** `s.split(sep)`: the maximal separator-free pieces, in order; joining
      them back with `sep` restores `s`. */
  function Split(s: string, sep: char): (r: seq<string>)
    ensures |r| >= 1
    ensures forall i :: 0 <= i < |r| ==> sep !in r[i]
    ensures Join(r, [sep]) == s
    decreases |s|
  {
    if |s| == 0 then [""]
    else
      var rest := Split(s[1..], sep);
      if s[0] == sep then
        assert Join([""] + rest, [sep]) == [sep] + Join(rest, [sep]);
        [""] + rest
      else
        var r := [[s[0]] + rest[0]] + rest[1..];
        assert sep !in r[0];
        assert Join(r, [sep]) == [s[0]] + Join(rest, [sep]);
        r
  }

  /** `xs.join(sep)`. */
  function Join(xs: seq<string>, sep: string): string
  {
    if |xs| == 0 then ""
    else if |xs| == 1 then xs[0]
    else xs[0] + sep + Join(xs[1..], sep)
  }

  lemma {:induction false} SplitNoSeparator(s: string, sep: char)
    requires sep !in s
    ensures Split(s, sep) == [s]
    decreases |s|
  {
    if |s| > 0 {
      SplitNoSeparator(s[1..], sep);
    }
  }

  lemma {:induction false} SplitAtSeparator(a: string, b: string, sep: char)
    requires sep !in a
    ensures Split(a + [sep] + b, sep) == [a] + Split(b, sep)
    decreases |a|
  {
    if |a| == 0 {
      assert (a + [sep] + b)[1..] == b;
    } else {
      assert (a + [sep] + b)[1..] == a[1..] + [sep] + b;
      SplitAtSeparator(a[1..], b, sep);
      assert [a[0]] + a[1..] == a;
    }
  }

  /** Splitting a join recovers the pieces, provided none contains the
      separator (the other half of the bijection stated on `Split`). */
  lemma {:induction false} SplitJoin(xs: seq<string>, sep: char)
    requires |xs| >= 1
    requires forall i :: 0 <= i < |xs| ==> sep !in xs[i]
    ensures Split(Join(xs, [sep]), sep) == xs
    decreases |xs|
  {
    if |xs| == 1 {
      SplitNoSeparator(xs[0], sep);
    } else {
      SplitJoin(xs[1..], sep);
      assert Join(xs, [sep]) == xs[0] + [sep] + Join(xs[1..], [sep]);
      SplitAtSeparator(xs[0], Join(xs[1..], [sep]), sep);
      assert [xs[0]] + xs[1..] == xs;
    }
  }

  /** Code-point (lexicographic) order, the order a database sort on a string field uses. */
  predicate StrLe(a: string, b: string)
    decreases |a|
  {
    if |a| == 0 then true
    else if |b| == 0 then false
    else if a[0] < b[0] then true
    else if a[0] > b[0] then false
    else StrLe(a[1..], b[1..])
  }

  lemma {:induction false} StrLeTotal(a: string, b: string)
    ensures StrLe(a, b) || StrLe(b, a)
    decreases |a|
  {
    if |a| > 0 && |b| > 0 && a[0] == b[0] {
      StrLeTotal(a[1..], b[1..]);
    }
  }

  lemma {:induction false} StrLeTransitive(a: string, b: string, c: string)
    requires StrLe(a, b) && StrLe(b, c)
    ensures StrLe(a, c)
    decreases |a|
  {
    if |a| > 0 && |b| > 0 && |c| > 0 && a[0] == b[0] && b[0] == c[0] {
      StrLeTransitive(a[1..], b[1..], c[1..]);
    }
  }

  lemma {:induction false} StrLeAntisymmetric(a: string, b: string)
    requires StrLe(a, b) && StrLe(b, a)
    ensures a == b
    decreases |a|
  {
    if |a| > 0 && |b| > 0 {
      StrLeAntisymmetric(a[1..], b[1..]);
      assert a == [a[0]] + a[1..] && b == [b[0]] + b[1..];
    }
  }

  /** The plural suffix the pages add to a count: "s" for every count but one. */
  function PluralSuffix(n: int): (s: string)
    ensures s == "" <==> n == 1
    ensures s != "" ==> s == "s"
  {
    if n != 1 then "s" else ""
  }

  predicate IsDigit(c: char) {
    '0' <= c <= '9'
  }

  predicate AllDigits(s: string) {
    forall i :: 0 <= i < |s| ==> IsDigit(s[i])
  }

  function DigitValue(c: char): (r: nat)
    requires IsDigit(c)
    ensures r < 10
  {
    (c as int) - ('0' as int)
  }

  function DigitChar(d: nat): (r: char)
    requires d < 10
    ensures IsDigit(r) && DigitValue(r) == d
  {
    (('0' as int) + d) as char
  }

  /** Length of the longest run of decimal digits at the start of `s`. */
  function DigitRun(s: string): (n: nat)
    ensures n <= |s|
    ensures forall i :: 0 <= i < n ==> IsDigit(s[i])
    ensures n < |s| ==> !IsDigit(s[n])
  {
    if |s| > 0 && IsDigit(s[0]) then 1 + DigitRun(s[1..]) else 0
  }

  /** Value of a string of decimal digits, most significant first. */
  function DecimalValue(s: string): nat
    requires forall i :: 0 <= i < |s| ==> IsDigit(s[i])
  {
    if |s| == 0 then 0 else DecimalValue(s[..|s| - 1]) * 10 + DigitValue(s[|s| - 1])
  }

  /** Decimal text of a natural number, no leading zeros. */
  function NatToString(n: nat): (s: string)
    ensures |s| >= 1
    ensures forall i :: 0 <= i < |s| ==> IsDigit(s[i])
    ensures DecimalValue(s) == n
    decreases n
  {
    if n < 10 then [DigitChar(n)]
    else
      var s := NatToString(n / 10) + [DigitChar(n % 10)];
      assert s[..|s| - 1] == NatToString(n / 10);
      s
  }

  /** Decimal text of an integer, with a leading '-' when negative. */
  function IntToString(n: int): string
  {
    if n < 0 then "-" + NatToString(-n) else NatToString(n)
  }

  /** Length of the sign in front of a number: one for a leading '-' or
      '+', else zero. */
  function SignLength(t: string): (k: nat)
    ensures k <= 1 && k <= |t|
  {
    if t != [] && (t[0] == '-' || t[0] == '+') then 1 else 0
  }

  /** The magnitude `v`, negated when `t` starts with '-'. */
  function ApplySign(t: string, v: nat): (r: int)
    ensures r == v as int || r == -(v as int)
    ensures r < 0 ==> t != [] && t[0] == '-'
  {
    if t != [] && t[0] == '-' then -(v as int) else v as int
  }

  /** `parseInt(s)` for decimal text: leading whitespace is skipped, an
      optional sign is read, then the longest digit run; no digits gives NaN
      (`None`). Anything after the digit run is ignored. */
  function ParseInt(s: string): (r: Option<int>)
  {
    var t := TrimStart(s);
    var k := SignLength(t);
    var n := DigitRun(t[k..]);
    if n == 0 then None else Some(ApplySign(t, DecimalValue(t[k..][..n])))
  }

  /** The shape of an integer's text: no surrounding whitespace, then an
      optional '-' and the digits of its magnitude. */
  lemma IntToStringShape(n: int)
    ensures var s := IntToString(n); var k := SignLength(s);
      IsTrimmed(s) && TrimStart(s) == s && k < |s| && AllDigits(s[k..])
      && DecimalValue(s[k..]) == (if n < 0 then -n else n) && ApplySign(s, DecimalValue(s[k..])) == n
  {
    var s := IntToString(n);
    var d := NatToString(if n < 0 then -n else n);
    assert IsDigit(d[0]) && IsDigit(d[|d| - 1]);
    assert s[SignLength(s)..] == d;
    TrimStartOfClean(s);
  }

  /** Printing an integer and parsing it back gives the integer. */
  lemma ParseIntOfIntToString(n: int)
    ensures ParseInt(IntToString(n)) == Some(n)
  {
    var s := IntToString(n);
    IntToStringShape(n);
    var d := s[SignLength(s)..];
    DigitRunAll(d);
    assert d[..|d|] == d;
  }

  /** `Number(s)` for the text forms the model covers: blank text reads as
      0, an optional sign followed by decimal digits (and nothing else) reads
      as that integer, and anything else is `None` (NaN, or a form the model
      leaves out: fractions, exponents, hex, `Infinity`). */
  function NumberOf(s: string): (r: Option<int>)
    ensures IsBlank(s) ==> r == Some(0)
  {
    var t := Trim(s);
    TrimEmptyIffBlank(s);
    if t == "" then Some(0)
    else
      var k := SignLength(t);
      if k < |t| && AllDigits(t[k..]) then Some(ApplySign(t, DecimalValue(t[k..]))) else None
  }

  /** Printing an integer and reading it back with `Number` gives the integer. */
  lemma NumberOfIntToString(n: int)
    ensures NumberOf(IntToString(n)) == Some(n)
  {
    IntToStringShape(n);
    TrimOfTrimmed(IntToString(n));
  }

  /** Where `Number` reads an integer from non-blank text, `parseInt` reads
      the same one. */
  lemma NumberOfAgreesWithParseInt(s: string)
    requires NumberOf(s).Some? && !IsBlank(s)
    ensures ParseInt(s) == NumberOf(s)
  {
    var u := TrimStart(s);
    var t := Trim(s);
    TrimEmptyIffBlank(s);
    TrimEndFollowedBySpace(u);
    var k := SignLength(t);
    assert SignLength(u) == k && u[k..|t|] == t[k..] == u[k..][..|t| - k];
    DigitsBeforeSpace(u, k, |t|);
  }

  /** What `TrimEnd` keeps is a prefix, and the character after it, if any,
      is whitespace. */
  lemma TrimEndFollowedBySpace(u: string)
    ensures TrimEnd(u) == u[..|TrimEnd(u)|]
    ensures |TrimEnd(u)| < |u| ==> IsSpace(u[|TrimEnd(u)|])
  {
    TrimEndIsPrefix(u);
    TrimEndDropsSpace(u);
    if |TrimEnd(u)| < |u| {
      assert u[|TrimEnd(u)|] == u[|TrimEnd(u)|..][0];
    }
  }

  /** A digit run in `u` from `k` up to a whitespace character (or the end)
      is the digit run of `u[k..]`. */
  lemma DigitsBeforeSpace(u: string, k: nat, n: nat)
    requires k < n <= |u|
    requires AllDigits(u[k..n])
    requires n < |u| ==> IsSpace(u[n])
    ensures DigitRun(u[k..]) == n - k
  {
    assert forall i :: 0 <= i < n - k ==> u[k..][i] == u[k..n][i];
    DigitRunPrefix(u[k..], n - k);
  }

  /** A leading run of digits that is followed by a non-digit, or by
      nothing, is the whole digit run. */
  lemma {:induction false} DigitRunPrefix(s: string, n: nat)
    requires n <= |s| && (forall i :: 0 <= i < n ==> IsDigit(s[i]))
    requires n < |s| ==> !IsDigit(s[n])
    ensures DigitRun(s) == n
    decreases n
  {
    if n > 0 {
      DigitRunPrefix(s[1..], n - 1);
    }
  }

  lemma {:induction false} DigitRunAll(s: string)
    requires forall i :: 0 <= i < |s| ==> IsDigit(s[i])
    ensures DigitRun(s) == |s|
    decreases |s|
  {
    if |s| > 0 {
      DigitRunAll(s[1..]);
    }
  }
}
