/** The JavaScript string built-ins the application relies on, over `seq<char>`:
    white space as `\s` and `trim` see it, ASCII lower-casing, `split`/`join`
    on a separator, decimal rendering of integers, `parseInt` and `Number`. */
module Text {
  import opened Wrappers

  /** ECMAScript WhiteSpace and LineTerminator code points: what the regular
      expression class `\s` matches and what `String.prototype.trim` removes. */
  predicate IsSpace(c: char) {
    || c == '\t' || c == '\n' || c == '\U{000B}' || c == '\U{000C}' || c == '\r'
    || c == ' ' || c == '\U{00A0}' || c == '\U{1680}' || ('\U{2000}' <= c <= '\U{200A}')
    || c == '\U{2028}' || c == '\U{2029}' || c == '\U{202F}' || c == '\U{205F}'
    || c == '\U{3000}' || c == '\U{FEFF}'
  }

  predicate NoSpace(s: string) {
    forall i :: 0 <= i < |s| ==> !IsSpace(s[i])
  }

  /** `trimStart`: the suffix left after dropping the leading white space. */
  function TrimStart(s: string): (r: string)
    ensures |r| <= |s| && r == s[|s| - |r|..]
    ensures forall i :: 0 <= i < |s| - |r| ==> IsSpace(s[i])
    ensures |r| == 0 || !IsSpace(r[0])
  {
    if s != [] && IsSpace(s[0]) then TrimStart(s[1..]) else s
  }

  /** `trimEnd`: the prefix left after dropping the trailing white space. */
  function TrimEnd(s: string): (r: string)
    ensures |r| <= |s| && r == s[..|r|]
    ensures forall i :: |r| <= i < |s| ==> IsSpace(s[i])
    ensures |r| == 0 || !IsSpace(r[|r| - 1])
  {
    if s != [] && IsSpace(s[|s| - 1]) then TrimEnd(s[..|s| - 1]) else s
  }

  /** Neither end is white space. */
  predicate Trimmed(t: string) {
    |t| == 0 || (!IsSpace(t[0]) && !IsSpace(t[|t| - 1]))
  }

  /** Every character is white space. */
  predicate AllSpace(s: string) {
    forall i :: 0 <= i < |s| ==> IsSpace(s[i])
  }

  /** `t` is `s` with white space removed at its ends: a piece of `s` with
      nothing but white space before it and after it. */
  predicate StripsEnds(s: string, t: string) {
    exists i :: 0 <= i <= |s| && StripsAt(s, t, i)
  }

  /** `t` is the piece of `s` starting at `i`, with only white space before
      it and after it. */
  predicate StripsAt(s: string, t: string, i: int) {
    0 <= i <= |s| - |t| && t == s[i..i + |t|] && AllSpace(s[..i]) && AllSpace(s[i + |t|..])
  }

  /** White space followed by white space is white space. */
  lemma AllSpaceConcat(x: string, y: string)
    requires AllSpace(x) && AllSpace(y)
    ensures AllSpace(x + y)
  {
    forall k | 0 <= k < |x + y| ensures IsSpace((x + y)[k]) {
      if k >= |x| { assert (x + y)[k] == y[k - |x|]; }
    }
  }

  /** A slice of `x + y` that lies within `y`. */
  lemma SliceOfConcat(x: string, y: string, lo: int, hi: int)
    requires |x| <= lo <= hi <= |x| + |y|
    ensures (x + y)[lo..hi] == y[lo - |x|..hi - |x|]
  {
    forall k | 0 <= k < hi - lo ensures (x + y)[lo..hi][k] == y[lo - |x|..hi - |x|][k] {
      assert (x + y)[lo + k] == y[lo - |x| + k];
    }
  }

  /** A slice of `x + y` that lies within `x`. */
  lemma SliceOfConcatLeft(x: string, y: string, lo: int, hi: int)
    requires 0 <= lo <= hi <= |x|
    ensures (x + y)[lo..hi] == x[lo..hi]
  {
    forall k | 0 <= k < hi - lo ensures (x + y)[lo..hi][k] == x[lo..hi][k] {
      assert (x + y)[lo + k] == x[lo + k];
    }
  }

  /** A suffix of `x + y` that starts within `x`. */
  lemma DropOfConcat(x: string, y: string, lo: int)
    requires 0 <= lo <= |x|
    ensures (x + y)[lo..] == x[lo..] + y
  {
    forall k | 0 <= k < |x| + |y| - lo ensures (x + y)[lo..][k] == (x[lo..] + y)[k] {
      assert (x + y)[lo + k] == (x[lo..] + y)[k];
    }
  }

  /** Dropping `i` characters and then `k` more drops `i + k`. */
  lemma DropOfDrop(s: string, i: int, k: int)
    requires 0 <= i && 0 <= k && i + k <= |s|
    ensures s[i..][k..] == s[i + k..]
  { }

  /** Dropping white space from the front of `s` to get `u`, then from the
      back of `u` to get `r`, leaves a piece of `s` with only white space
      around it. */
  lemma StripsAtOfDrops(s: string, u: string, r: string)
    requires |u| <= |s| && u == s[|s| - |u|..] && AllSpace(s[..|s| - |u|])
    requires |r| <= |u| && r == u[..|r|] && AllSpace(u[|r|..])
    ensures StripsAt(s, r, |s| - |u|)
  {
    var i := |s| - |u|;
    SliceOfConcat(s[..i], u, i, i + |r|);
    SliceOfConcat(s[..i], u, i + |r|, |s|);
    assert s[..i] + u == s;
  }


  /** `String.prototype.trim`: the text with the white space at its ends
      removed (`StripsEndsOfTrim`), and none left at either end; a string
      without white space is returned as it is. */
  function Trim(s: string): (r: string)
    ensures |r| <= |s|
    ensures Trimmed(r)
    ensures NoSpace(s) ==> r == s
  {
    TrimEnd(TrimStart(s))
  }

  /** `trim` leaves a piece of the text with only white space around it. */
  lemma StripsEndsOfTrim(s: string)
    ensures StripsEnds(s, Trim(s))
  {
    var u := TrimStart(s);
    var r := TrimEnd(u);
    var front := s[..|s| - |u|];
    assert AllSpace(front) by {
      forall k | 0 <= k < |front| ensures IsSpace(front[k]) { }
    }
    var back := u[|r|..];
    assert AllSpace(back) by {
      forall k | 0 <= k < |back| ensures IsSpace(back[k]) { assert back[k] == u[|r| + k]; }
    }
    StripsAtOfDrops(s, u, r);
  }

  /** `trimStart` stops at the first character that is not white space. */
  lemma TrimStartAt(s: string, i: int)
    requires 0 <= i < |s| && AllSpace(s[..i]) && !IsSpace(s[i])
    ensures TrimStart(s) == s[i..]
  {
    if i > 0 {
      assert IsSpace(s[0]) by { assert s[..i][0] == s[0]; }
      assert s[1..][..i - 1] == s[..i][1..];
      TrimStartAt(s[1..], i - 1);
      assert s[1..][i - 1..] == s[i..];
    }
  }

  /** `trimEnd` stops after the last character that is not white space. */
  lemma TrimEndAt(u: string, n: int)
    requires 0 < n <= |u| && AllSpace(u[n..]) && !IsSpace(u[n - 1])
    ensures TrimEnd(u) == u[..n]
  {
  }

  /** Stripping white space from the ends until neither end is white space
      can give only one text: `trim` is fixed by its two properties. */
  lemma TrimUnique(s: string, t: string)
    requires StripsEnds(s, t) && Trimmed(t)
    ensures t == Trim(s)
  {
    var i :| 0 <= i <= |s| && StripsAt(s, t, i);
    TrimOfPiece(s, t, i);
  }

  /** `trimStart` of nothing but white space is empty. */
  lemma TrimStartAllSpace(s: string)
    requires AllSpace(s)
    ensures TrimStart(s) == []
  {
    if s != [] {
      assert IsSpace(s[0]);
      assert AllSpace(s[1..]) by {
        forall k | 0 <= k < |s| - 1 ensures IsSpace(s[1..][k]) { assert s[1..][k] == s[k + 1]; }
      }
      TrimStartAllSpace(s[1..]);
    }
  }

  /** A text that is white space around an empty piece trims to nothing. */
  lemma TrimOfBlank(s: string, i: int)
    requires 0 <= i <= |s| && AllSpace(s[..i]) && AllSpace(s[i..])
    ensures TrimEnd(TrimStart(s)) == []
  {
    assert s[..i] + s[i..] == s;
    AllSpaceConcat(s[..i], s[i..]);
    TrimStartAllSpace(s);
  }

  /** `trimStart` then `trimEnd` finds the piece that has only white space
      around it and none at its ends. */
  lemma TrimOfPiece(s: string, t: string, i: int)
    requires StripsAt(s, t, i) && Trimmed(t)
    ensures TrimEnd(TrimStart(s)) == t
  {
    if |t| == 0 {
      TrimOfBlank(s, i);
    } else {
      var u := s[i..];
      assert u[..|t|] == t;
      assert !IsSpace(s[i]) by { assert s[i] == t[0]; }
      TrimStartAt(s, i);
      DropOfDrop(s, i, |t|);
      assert !IsSpace(u[|t| - 1]) by { assert u[|t| - 1] == t[|t| - 1]; }
      TrimEndAt(u, |t|);
    }
  }



  /** `trim` leaves nothing exactly when the text is all white space. */
  lemma TrimEmpty(s: string)
    ensures |Trim(s)| == 0 <==> forall i :: 0 <= i < |s| ==> IsSpace(s[i])
  {
    var t := TrimStart(s);
    assert |t| == 0 ==> forall i :: 0 <= i < |s| ==> IsSpace(s[i]);
    assert |t| != 0 ==> |TrimEnd(t)| != 0;
  }

  /** `toLowerCase` restricted to ASCII: `A`..`Z` become `a`..`z`, every other
      character is left as it is. */
  function LowerChar(c: char): char {
    if 'A' <= c <= 'Z' then (c as int + 32) as char else c
  }

  function Lower(s: string): (r: string)
    ensures |r| == |s|
    ensures forall i :: 0 <= i < |s| ==> r[i] == LowerChar(s[i])
  {
    seq(|s|, i requires 0 <= i < |s| => LowerChar(s[i]))
  }

  /** Number of occurrences of `c` in `s`. */
  function Count(s: string, c: char): nat {
    if s == [] then 0 else (if s[0] == c then 1 else 0) + Count(s[1..], c)
  }

  /** `s.split(sep)` for a one-character separator: every separator starts a
      new piece, so there is one piece more than there are separators, and no
      piece holds a separator. */
  function Split(s: string, sep: char): (r: seq<string>)
    ensures |r| == Count(s, sep) + 1
    ensures forall i :: 0 <= i < |r| ==> sep !in r[i]
  {
    if s == [] then [[]]
    else
      var rest := Split(s[1..], sep);
      if s[0] == sep then [[]] + rest else [[s[0]] + rest[0]] + rest[1..]
  }

  /** `parts.join(sep)`. */
  function Join(parts: seq<string>, sep: string): string {
    if |parts| == 0 then []
    else if |parts| == 1 then parts[0]
    else parts[0] + sep + Join(parts[1..], sep)
  }

  lemma JoinCons(p: string, parts: seq<string>, sep: string)
    requires |parts| > 0
    ensures Join([p] + parts, sep) == p + sep + Join(parts, sep)
  {
    assert ([p] + parts)[1..] == parts;
  }

  /** Joining the pieces of a split with the same separator gives back the string. */
  lemma {:induction false} JoinSplit(s: string, sep: char)
    ensures Join(Split(s, sep), [sep]) == s
  {
    if s != [] {
      var rest := Split(s[1..], sep);
      JoinSplit(s[1..], sep);
      if s[0] == sep {
        JoinCons([], rest, [sep]);
      } else if |rest| == 1 {
        assert Split(s, sep) == [[s[0]] + rest[0]];
      } else {
        JoinCons([s[0]] + rest[0], rest[1..], [sep]);
        JoinCons(rest[0], rest[1..], [sep]);
        assert [rest[0]] + rest[1..] == rest;
      }
    }
  }

  lemma {:induction false} SplitNoSep(p: string, sep: char)
    requires sep !in p
    ensures Split(p, sep) == [p]
  {
    if p != [] {
      SplitNoSep(p[1..], sep);
      assert [p[0]] + p[1..] == p;
    }
  }

  lemma {:induction false} SplitPiece(p: string, sep: char, t: string)
    requires sep !in p
    ensures Split(p + [sep] + t, sep) == [p] + Split(t, sep)
  {
    var s := p + [sep] + t;
    if p == [] {
      assert s[0] == sep && s[1..] == t;
    } else {
      assert s[0] == p[0] && s[1..] == p[1..] + [sep] + t;
      SplitPiece(p[1..], sep, t);
      assert [p[0]] + p[1..] == p;
    }
  }

  /** Splitting a join of separator-free pieces gives back the pieces. */
  lemma {:induction false} SplitJoin(parts: seq<string>, sep: char)
    requires |parts| > 0
    requires forall i :: 0 <= i < |parts| ==> sep !in parts[i]
    ensures Split(Join(parts, [sep]), sep) == parts
  {
    if |parts| == 1 {
      SplitNoSep(parts[0], sep);
    } else {
      SplitJoin(parts[1..], sep);
      SplitPiece(parts[0], sep, Join(parts[1..], [sep]));
      assert [parts[0]] + parts[1..] == parts;
    }
  }

  predicate IsPrefix(p: string, s: string) {
    |p| <= |s| && s[..|p|] == p
  }

  /** `s.includes(t)`. */
  predicate IsSubstring(t: string, s: string) {
    exists i :: 0 <= i <= |s| && IsPrefix(t, s[i..])
  }

  lemma SubstringOfConcat(a: string, t: string, b: string)
    ensures IsSubstring(t, a + t + b)
  {
    var s := a + t + b;
    assert s[|a|..][..|t|] == t;
  }

  lemma SubstringTrans(t: string, u: string, s: string)
    requires IsSubstring(t, u) && IsSubstring(u, s)
    ensures IsSubstring(t, s)
  {
    var i :| 0 <= i <= |u| && IsPrefix(t, u[i..]);
    var j :| 0 <= j <= |s| && IsPrefix(u, s[j..]);
    assert s[j..][..|u|] == u;
    forall k | 0 <= k < |t| ensures s[j + i + k] == t[k] {
      assert u[i..][..|t|][k] == u[i + k];
      assert s[j..][..|u|][i + k] == s[j + i + k];
    }
    assert s[j + i..][..|t|] == t;
  }

  /** Every piece of a join occurs in it. */
  lemma {:induction false} JoinHasPart(parts: seq<string>, sep: string, i: int)
    requires 0 <= i < |parts|
    ensures IsSubstring(parts[i], Join(parts, sep))
  {
    if |parts| == 1 {
      SubstringOfConcat([], parts[0], []);
      assert [] + parts[0] + [] == parts[0];
    } else if i == 0 {
      SubstringOfConcat([], parts[0], sep + Join(parts[1..], sep));
      assert [] + parts[0] + (sep + Join(parts[1..], sep)) == Join(parts, sep);
    } else {
      JoinHasPart(parts[1..], sep, i - 1);
      SubstringOfConcat(parts[0] + sep, Join(parts[1..], sep), []);
      assert parts[0] + sep + Join(parts[1..], sep) + [] == Join(parts, sep);
      SubstringTrans(parts[i], Join(parts[1..], sep), Join(parts, sep));
    }
  }

  /** `trim` only removes characters. */
  lemma TrimKeepsOut(s: string, c: char)
    requires c !in s
    ensures c !in Trim(s)
  {
    var t := TrimStart(s);
    var r := Trim(s);
    assert r == TrimEnd(t);
  }

  /** A text with no white space at either end is its own `trim`. */
  lemma TrimOfTrimmed(t: string)
    requires Trimmed(t)
    ensures Trim(t) == t
  {
    assert TrimStart(t) == t;
  }

  /** White space in front does not change the `trim`. */
  lemma TrimLeadingSpace(t: string)
    ensures Trim(" " + t) == Trim(t)
  {
    assert (" " + t)[1..] == t;
    assert TrimStart(" " + t) == TrimStart(t);
  }

  // ---------------------------------------------------------------- numbers

  predicate IsDigit(c: char) {
    '0' <= c <= '9'
  }

  /** The value of `c` as a digit of base 16 (which includes base 10), or -1. */
  function HexDigitValue(c: char): (v: int)
    ensures -1 <= v < 16
    ensures IsDigit(c) ==> v == c as int - '0' as int
  {
    if '0' <= c <= '9' then c as int - '0' as int
    else if 'a' <= c <= 'f' then c as int - 'a' as int + 10
    else if 'A' <= c <= 'F' then c as int - 'A' as int + 10
    else -1
  }

  predicate IsDigitIn(c: char, radix: nat) {
    0 <= HexDigitValue(c) < radix
  }

  predicate AllDigitsIn(s: string, radix: nat) {
    forall i :: 0 <= i < |s| ==> IsDigitIn(s[i], radix)
  }

  /** The number a string of digits stands for, most significant digit first. */
  function DigitsValue(s: string, radix: nat): nat
    requires AllDigitsIn(s, radix)
  {
    if s == [] then 0
    else DigitsValue(s[..|s| - 1], radix) * radix + HexDigitValue(s[|s| - 1])
  }

  function DigitChar(d: nat): (c: char)
    requires d < 10
    ensures IsDigit(c) && HexDigitValue(c) == d
  {
    ('0' as int + d) as char
  }

  /** `String(n)` for a natural number: its shortest decimal numeral. */
  function NatToString(n: nat): (r: string)
    ensures |r| >= 1 && AllDigitsIn(r, 10)
    ensures n >= 10 <==> |r| >= 2
    ensures r[0] == '0' ==> n == 0
    decreases n
  {
    if n < 10 then [DigitChar(n)] else NatToString(n / 10) + [DigitChar(n % 10)]
  }

  /** Reading a numeral back gives the number it was written from. */
  lemma {:induction false} NatToStringValue(n: nat)
    ensures DigitsValue(NatToString(n), 10) == n
  {
    var r := NatToString(n);
    if n >= 10 {
      NatToStringValue(n / 10);
      assert r[..|r| - 1] == NatToString(n / 10);
    }
  }

  lemma NatToStringInjective(a: nat, b: nat)
    requires NatToString(a) == NatToString(b)
    ensures a == b
  {
    NatToStringValue(a);
    NatToStringValue(b);
  }

  /** `String(n)` for an integer. */
  function IntToString(n: int): (r: string)
    ensures |r| >= 1 && (r[0] == '-' || IsDigit(r[0]))
  {
    if n < 0 then "-" + NatToString(-n) else NatToString(n)
  }

  /** Length of the longest prefix of `s` made of digits of `radix`. */
  function DigitRun(s: string, radix: nat): (k: nat)
    ensures k <= |s| && AllDigitsIn(s[..k], radix)
    ensures k < |s| ==> !IsDigitIn(s[k], radix)
  {
    if s != [] && IsDigitIn(s[0], radix) then
      var k := DigitRun(s[1..], radix) + 1;
      assert s[..k] == [s[0]] + s[1..][..k - 1];
      k
    else 0
  }

  /** The unsigned part of `parseInt`: a `0x`/`0X` prefix selects base 16,
      otherwise base 10, and the longest run of digits that follows is read;
      no digit at all gives `NaN` (`None`). */
  function ParseUnsigned(u: string): (r: Option<nat>)
    ensures u == [] || !IsDigitIn(u[0], 10) ==> r.None?
    ensures u != [] && '1' <= u[0] <= '9' ==> r.Some?
  {
    var hex := |u| >= 2 && u[0] == '0' && (u[1] == 'x' || u[1] == 'X');
    var radix := if hex then 16 else 10;
    var digits := if hex then u[2..] else u;
    var k := DigitRun(digits, radix);
    if k == 0 then None else Some(DigitsValue(digits[..k], radix))
  }

  /** JavaScript's `parseInt(s)` with no radix: leading white space is skipped
      and one sign is read before the unsigned part. */
  function ParseInt(s: string): (r: Option<int>)
    ensures TrimStart(s) == [] ==> r.None?
    ensures var t := TrimStart(s);
      t != [] && !IsDigitIn(t[0], 10) && t[0] != '-' && t[0] != '+' ==> r.None?
    ensures var t := TrimStart(s);
      t != [] && '1' <= t[0] <= '9' ==> r.Some? && r.value >= 0
    ensures r.Some? && r.value < 0 ==> TrimStart(s)[0] == '-'
    ensures r.Some? && TrimStart(s)[0] == '-' ==> r.value <= 0
  {
    var t := TrimStart(s);
    if t != [] && t[0] == '-' then
      match ParseUnsigned(t[1..])
      case None => None
      case Some(v) => Some(0 - v as int)
    else
      match ParseUnsigned(if t != [] && t[0] == '+' then t[1..] else t)
      case None => None
      case Some(v) => Some(v)
  }

  lemma AllDigitsRun(s: string)
    requires AllDigitsIn(s, 10)
    ensures DigitRun(s, 10) == |s|
  {
    if s != [] {
      AllDigitsRun(s[1..]);
    }
  }

  lemma ParseUnsignedOfNatToString(m: nat)
    ensures ParseUnsigned(NatToString(m)) == Some(m)
  {
    var d := NatToString(m);
    assert !(|d| >= 2 && d[0] == '0');
    AllDigitsRun(d);
    assert d[..|d|] == d;
    NatToStringValue(m);
  }

  /** `parseInt` reads back what `String` writes. */
  lemma ParseIntOfIntToString(n: int)
    ensures ParseInt(IntToString(n)) == Some(n)
  {
    var m: nat := if n < 0 then -n else n;
    var s := IntToString(n);
    assert TrimStart(s) == s by {
      assert !IsSpace(s[0]);
    }
    ParseUnsignedOfNatToString(m);
    if n < 0 {
      assert s[1..] == NatToString(m);
    }
  }

  /** An optional sign and one or more decimal digits, the whole string;
      anything else is not a numeral (`None`). */
  function ParseDecimal(s: string): (r: Option<int>)
  {
    var negative := s != [] && s[0] == '-';
    var digits := if s != [] && (s[0] == '-' || s[0] == '+') then s[1..] else s;
    if digits == [] || !AllDigitsIn(digits, 10) then None
    else
      var v: int := DigitsValue(digits, 10);
      Some(if negative then -v else v)
  }

  lemma ParseDecimalOfIntToString(n: int)
    ensures ParseDecimal(IntToString(n)) == Some(n)
  {
    var m: nat := if n < 0 then -n else n;
    NatToStringValue(m);
    ParseDecimalOfDigits(NatToString(m));
  }

  lemma IntToStringNoSpace(n: int)
    ensures NoSpace(IntToString(n))
  {
    var r := IntToString(n);
    forall i | 0 <= i < |r| ensures !IsSpace(r[i]) {
      if n < 0 && i > 0 {
        assert r[i] == NatToString(-n)[i - 1];
      }
    }
  }

  /** `Number(s)` for the numerals the model covers: white space around the
      text is ignored, a blank text is 0, and otherwise the rest must be a
      signed decimal integer; anything else is `NaN` (`None`). */
  function Number(s: string): (r: Option<int>)
    ensures |Trim(s)| == 0 ==> r == Some(0)
    ensures |Trim(s)| != 0 ==> r == ParseDecimal(Trim(s))
  {
    var t := Trim(s);
    if |t| == 0 then Some(0) else ParseDecimal(t)
  }

  /** `Number` reads back what `String` writes. */
  lemma NumberOfIntToString(n: int)
    ensures Number(IntToString(n)) == Some(n)
  {
    IntToStringNoSpace(n);
    ParseDecimalOfIntToString(n);
  }

  /** Padding a text with white space keeps every piece that has only white
      space around it. */
  lemma StripsEndsPadded(a: string, t: string, b: string, m: string)
    requires AllSpace(a) && AllSpace(b) && StripsEnds(t, m)
    ensures StripsEnds(a + t + b, m)
  {
    var i :| 0 <= i <= |t| && StripsAt(t, m, i);
    var at := a + t;
    var s := at + b;
    var j := |a| + i;
    SliceOfConcatLeft(at, b, 0, j);
    assert at[..j] == a + t[..i];
    SliceOfConcatLeft(at, b, j, j + |m|);
    SliceOfConcat(a, t, j, j + |m|);
    DropOfConcat(at, b, j + |m|);
    SliceOfConcat(a, t, j + |m|, |at|);
    AllSpaceConcat(a, t[..i]);
    AllSpaceConcat(t[i + |m|..], b);
    assert s[..j] == a + t[..i];
    assert s[j..j + |m|] == m;
    assert s[j + |m|..] == t[i + |m|..] + b;
    assert StripsAt(s, m, j);
  }

  /** White space put before or after a text never changes what `trim`
      leaves of it. */
  lemma TrimIgnoresSpace(a: string, t: string, b: string)
    requires AllSpace(a) && AllSpace(b)
    ensures Trim(a + t + b) == Trim(t)
  {
    StripsEndsOfTrim(t);
    StripsEndsPadded(a, t, b, Trim(t));
    TrimUnique(a + t + b, Trim(t));
  }

  /** ... and so never changes what `Number` reads. */
  lemma NumberIgnoresSpace(a: string, t: string, b: string)
    requires AllSpace(a) && AllSpace(b)
    ensures Number(a + t + b) == Number(t)
  {
    TrimIgnoresSpace(a, t, b);
  }

  /** `ParseDecimal` of a run of decimal digits, alone or after a minus sign. */
  lemma ParseDecimalOfDigits(d: string)
    requires d != [] && AllDigitsIn(d, 10)
    ensures ParseDecimal(d) == Some(DigitsValue(d, 10) as int)
    ensures ParseDecimal("-" + d) == Some(-(DigitsValue(d, 10) as int))
  {
    assert d[0] != '-' && d[0] != '+' by { assert IsDigitIn(d[0], 10); }
    assert ("-" + d)[1..] == d;
  }

  /** A run of decimal digits, alone or after a minus sign, reads as the
      number the digits stand for. */
  lemma NumberOfDigits(d: string)
    requires d != [] && AllDigitsIn(d, 10)
    ensures Number(d) == Some(DigitsValue(d, 10) as int)
    ensures Number("-" + d) == Some(-(DigitsValue(d, 10) as int))
  {
    var m := "-" + d;
    assert NoSpace(d);
    assert NoSpace(m) by {
      forall k | 0 <= k < |m| ensures !IsSpace(m[k]) { if k > 0 { assert m[k] == d[k - 1]; } }
    }
    assert Trim(d) == d && Trim(m) == m;
    ParseDecimalOfDigits(d);
  }

}
