/**
 * The JavaScript string primitives the grid relies on: `split` on a one-character
 * separator, array destructuring of its first two pieces, `trim`, `parseInt` and
 * the conversion of an integral number to its decimal text.
 */
module JsText {
  import opened Wrappers

  /** JavaScript's WhiteSpace and LineTerminator code points: what `trim` and `parseInt` skip. */
  predicate IsTrimmable(c: char) {
    var n := c as int;
    n == 0x09 || n == 0x0A || n == 0x0B || n == 0x0C || n == 0x0D || n == 0x20 || n == 0xA0
    || n == 0x1680 || (0x2000 <= n <= 0x200A) || n == 0x2028 || n == 0x2029 || n == 0x202F
    || n == 0x205F || n == 0x3000 || n == 0xFEFF
  }

  /** The index of the first non-whitespace character of `s` at or after `i`, or `|s|`. */
  function SkipForward(s: string, i: nat): (n: nat)
    requires i <= |s|
    ensures i <= n <= |s|
    ensures forall k :: i <= k < n ==> IsTrimmable(s[k])
    ensures n == |s| || !IsTrimmable(s[n])
    decreases |s| - i
  {
    if i < |s| && IsTrimmable(s[i]) then SkipForward(s, i + 1) else i
  }

  /** The index just past the last non-whitespace character of `s[lo..j]`, or `lo`. */
  function SkipBackward(s: string, lo: nat, j: nat): (n: nat)
    requires lo <= j <= |s|
    ensures lo <= n <= j
    ensures forall k :: n <= k < j ==> IsTrimmable(s[k])
    ensures n == lo || !IsTrimmable(s[n - 1])
    decreases j
  {
    if lo < j && IsTrimmable(s[j - 1]) then SkipBackward(s, lo, j - 1) else j
  }

  /** `s.trimStart()`: the suffix left after dropping leading whitespace. */
  function TrimStart(s: string): (r: string)
    ensures |r| <= |s| && r == s[|s| - |r|..]
  {
    s[SkipForward(s, 0)..]
  }

  /** `s.trim()`: a slice of `s`. */
  function Trim(s: string): (r: string)
    ensures exists a, b :: 0 <= a <= b <= |s| && r == s[a..b]
  {
    var a := SkipForward(s, 0);
    s[a..SkipBackward(s, a, |s|)]
  }

  /** The trimmed text has no whitespace at either end. */
  lemma TrimEnds(s: string)
    ensures Trim(s) == [] || (!IsTrimmable(Trim(s)[0]) && !IsTrimmable(Trim(s)[|Trim(s)| - 1]))
  {
    var a := SkipForward(s, 0);
    var b := SkipBackward(s, a, |s|);
    var r := Trim(s);
    assert r == s[a..b];
    if a < b {
      assert r[0] == s[a];
      assert r[|r| - 1] == s[b - 1];
    }
  }

  /**
   * What `trim` removes: the result is the slice `s[a..b]` where everything before `a` and from
   * `b` on is whitespace, and the slice neither starts nor ends with whitespace. By
   * `TrimmedAtUnique` these facts determine the result.
   */
  lemma TrimSpec(s: string)
    ensures exists a, b :: 0 <= a <= b <= |s| && Trim(s) == s[a..b] && TrimmedAt(s, a, b)
  {
    var a := SkipForward(s, 0);
    var b := SkipBackward(s, a, |s|);
    assert Trim(s) == s[a..b];
    assert TrimmedAt(s, a, b);
  }

  /** `s[a..b]` is `s` with exactly its leading and trailing whitespace removed. */
  predicate TrimmedAt(s: string, a: int, b: int)
    requires 0 <= a <= b <= |s|
  {
    && (forall i :: 0 <= i < a ==> IsTrimmable(s[i]))
    && (forall i :: b <= i < |s| ==> IsTrimmable(s[i]))
    && (a == b || (!IsTrimmable(s[a]) && !IsTrimmable(s[b - 1])))
  }

  /** Only one slice of `s` is `s` without its leading and trailing whitespace. */
  lemma TrimmedAtUnique(s: string, a: int, b: int, a': int, b': int)
    requires 0 <= a <= b <= |s| && TrimmedAt(s, a, b)
    requires 0 <= a' <= b' <= |s| && TrimmedAt(s, a', b')
    ensures s[a..b] == s[a'..b']
  {
    if a < b && a' < b' {
      if a < a' { assert false; }
      if a' < a { assert false; }
      if b < b' { assert false; }
      if b' < b { assert false; }
    } else if a < b {
      if a < a' { assert false; } else { assert false; }
    } else if a' < b' {
      if a' < a { assert false; } else { assert false; }
    }
  }

  /** A text with no whitespace at either end is its own trim. */
  lemma {:induction false} TrimOfTrimmed(s: string)
    requires s == [] || (!IsTrimmable(s[0]) && !IsTrimmable(s[|s| - 1]))
    ensures Trim(s) == s
  {
    if s != [] {
      assert SkipForward(s, 0) == 0;
      assert SkipBackward(s, 0, |s|) == |s|;
    }
    assert s[0..|s|] == s;
  }

  /** Trimming twice is trimming once. */
  lemma TrimIdempotent(s: string)
    ensures Trim(Trim(s)) == Trim(s)
  {
    TrimEnds(s);
    TrimOfTrimmed(Trim(s));
  }

  /** The index of the first `c` in `s`, if any (`s.indexOf(c)`). */
  function IndexOf(s: string, c: char): (r: Option<nat>)
    ensures r.None? <==> c !in s
    ensures r.Some? ==> r.value < |s| && s[r.value] == c && c !in s[..r.value]
  {
    if |s| == 0 then None
    else if s[0] == c then Some(0)
    else match IndexOf(s[1..], c)
      case None => None
      case Some(i) => Some(i + 1)
  }

  /** `s.split(sep)` for a one-character separator: the pieces between separators, never fewer than one. */
  function Split(s: string, sep: char): (r: seq<string>)
    ensures |r| >= 1
    ensures forall i :: 0 <= i < |r| ==> sep !in r[i]
    decreases |s|
  {
    match IndexOf(s, sep)
    case None => [s]
    case Some(i) => [s[..i]] + Split(s[i + 1..], sep)
  }

  /** `pieces.join(sep)`, the inverse of `Split`. */
  function Join(pieces: seq<string>, sep: char): string
    requires |pieces| >= 1
  {
    if |pieces| == 1 then pieces[0] else pieces[0] + [sep] + Join(pieces[1..], sep)
  }

  /** A character that is neither the separator nor in any piece is not in the join. */
  lemma {:induction false} JoinAvoids(pieces: seq<string>, sep: char, c: char)
    requires |pieces| >= 1 && c != sep
    requires forall i :: 0 <= i < |pieces| ==> c !in pieces[i]
    ensures c !in Join(pieces, sep)
  {
    if |pieces| > 1 {
      JoinAvoids(pieces[1..], sep, c);
      assert c !in pieces[0];
    }
  }

  /** Every piece of a join is part of the joined text, so a character absent from the join is absent from each piece. */
  lemma {:induction false} JoinAvoidsInverse(pieces: seq<string>, sep: char, c: char, i: int)
    requires |pieces| >= 1 && 0 <= i < |pieces|
    requires c !in Join(pieces, sep)
    ensures c !in pieces[i]
  {
    if |pieces| > 1 {
      assert Join(pieces, sep) == pieces[0] + [sep] + Join(pieces[1..], sep);
      if i > 0 { JoinAvoidsInverse(pieces[1..], sep, c, i - 1); }
    }
  }

  /** Joining the pieces of a split gives back the text. */
  lemma {:induction false} JoinSplit(s: string, sep: char)
    ensures Join(Split(s, sep), sep) == s
    decreases |s|
  {
    match IndexOf(s, sep)
    case None =>
      assert Split(s, sep) == [s];
    case Some(i) =>
      var rest := s[i + 1..];
      var pieces := Split(s, sep);
      assert pieces == [s[..i]] + Split(rest, sep);
      assert pieces[1..] == Split(rest, sep);
      JoinSplit(rest, sep);
      calc {
        Join(pieces, sep);
        pieces[0] + [sep] + Join(pieces[1..], sep);
        s[..i] + [sep] + rest;
        { assert s == s[..i] + [sep] + rest; }
        s;
      }
  }

  /** Splitting a join of separator-free pieces gives back the pieces. */
  lemma {:induction false} SplitJoin(pieces: seq<string>, sep: char)
    requires |pieces| >= 1
    requires forall i :: 0 <= i < |pieces| ==> sep !in pieces[i]
    ensures Split(Join(pieces, sep), sep) == pieces
  {
    var s := Join(pieces, sep);
    if |pieces| == 1 {
      assert IndexOf(s, sep).None?;
    } else {
      var rest := Join(pieces[1..], sep);
      SplitJoin(pieces[1..], sep);
      var p := pieces[0];
      assert s == p + [sep] + rest;
      assert s[..|p|] == p && s[|p|] == sep;
      assert IndexOf(s, sep) == Some(|p|);
      assert s[|p| + 1..] == rest;
    }
  }

  /** `const [a, b] = s.split(sep)`: the first piece, and the second one when there is one (else `undefined`). */
  function FirstTwo(s: string, sep: char): (string, Option<string>)
  {
    var pieces := Split(s, sep);
    (pieces[0], if |pieces| >= 2 then Some(pieces[1]) else None)
  }

  /**
   * The first destructured piece is the text before the first separator; the second is
   * absent exactly when there is no separator, and otherwise is the text between the first
   * separator and the next one (or the end), so anything after a second separator is ignored.
   */
  lemma FirstTwoText(s: string, sep: char)
    ensures IndexOf(s, sep).None? ==> FirstTwo(s, sep) == (s, None)
    ensures IndexOf(s, sep).Some? ==>
      var i := IndexOf(s, sep).value;
      var rest := s[i + 1..];
      FirstTwo(s, sep).0 == s[..i] &&
      FirstTwo(s, sep).1 == Some(match IndexOf(rest, sep) case None => rest case Some(j) => rest[..j])
  {
    if IndexOf(s, sep).Some? {
      var i := IndexOf(s, sep).value;
      var rest := s[i + 1..];
      var tail := Split(rest, sep);
      assert Split(s, sep) == [s[..i]] + tail;
      assert tail[0] == match IndexOf(rest, sep) case None => rest case Some(j) => rest[..j];
    }
  }

  /** The decimal digit character of `d`. */
  function DigitChar(d: nat): char
    requires d < 10
  {
    "0123456789"[d]
  }

  /** The decimal text of a non-negative integer, every digit written out. */
  function NatToString(n: nat): (r: string)
    ensures |r| >= 1
    ensures forall i :: 0 <= i < |r| ==> '0' <= r[i] <= '9'
  {
    if n < 10 then [DigitChar(n)] else NatToString(n / 10) + [DigitChar(n % 10)]
  }

  /** `String(n)` for an integral number. */
  function IntToString(n: int): string {
    if n < 0 then "-" + NatToString(-n) else NatToString(n)
  }

  /** The value of a character as a digit in `radix` (10 or 16), if it is one. */
  function DigitValue(c: char, radix: nat): (r: Option<nat>)
    ensures r.Some? ==> r.value < radix
  {
    if '0' <= c <= '9' && (c as int) - ('0' as int) < radix then Some((c as int) - ('0' as int))
    else if radix == 16 && 'a' <= c <= 'f' then Some((c as int) - ('a' as int) + 10)
    else if radix == 16 && 'A' <= c <= 'F' then Some((c as int) - ('A' as int) + 10)
    else None
  }

  /** The length of the longest prefix of `s` made of digits in `radix`. */
  function DigitRun(s: string, radix: nat): (n: nat)
    ensures n <= |s|
    ensures forall i :: 0 <= i < n ==> DigitValue(s[i], radix).Some?
    ensures n < |s| ==> DigitValue(s[n], radix).None?
  {
    if |s| > 0 && DigitValue(s[0], radix).Some? then 1 + DigitRun(s[1..], radix) else 0
  }

  /** The number a run of digits denotes in `radix`, most significant first. */
  function DigitsValue(s: string, radix: nat): nat
    requires forall i :: 0 <= i < |s| ==> DigitValue(s[i], radix).Some?
  {
    if |s| == 0 then 0
    else
      var init := s[..|s| - 1];
      assert forall i :: 0 <= i < |init| ==> init[i] == s[i];
      DigitsValue(init, radix) * radix + DigitValue(s[|s| - 1], radix).value
  }

  /** The unsigned part of `parseInt`: hexadecimal after `0x`/`0X`, decimal otherwise, up to the first non-digit. */
  function ParseUnsigned(u: string): Option<nat> {
    var hex := |u| >= 2 && u[0] == '0' && (u[1] == 'x' || u[1] == 'X');
    var radix := if hex then 16 else 10;
    var digits := if hex then u[2..] else u;
    var n := DigitRun(digits, radix);
    if n == 0 then None else Some(DigitsValue(digits[..n], radix))
  }

  /**
   * `parseInt(s)` with no radix: skip leading whitespace, take an optional sign, then read
   * the digits as `ParseUnsigned` does; `None` is NaN.
   */
  function ParseInt(s: string): Option<int> {
    var t := TrimStart(s);
    if |t| > 0 && t[0] == '-' then
      match ParseUnsigned(t[1..]) case None => None case Some(v) => Some(-(v as int))
    else
      var u := if |t| > 0 && t[0] == '+' then t[1..] else t;
      match ParseUnsigned(u) case None => None case Some(v) => Some(v)
  }

  /** Text starting with a lower-case letter other than a-f is NaN to `parseInt`. */
  lemma ParseIntOfWord(s: string)
    requires |s| > 0 && 'g' <= s[0] <= 'z'
    ensures ParseInt(s).None?
  {
    assert !IsTrimmable(s[0]);
    assert SkipForward(s, 0) == 0;
    assert TrimStart(s) == s;
    assert DigitValue(s[0], 10).None?;
    assert DigitRun(s, 10) == 0;
  }

  /** Text starting with `[` is NaN to `parseInt`. */
  lemma ParseIntOfBracket(s: string)
    requires |s| > 0 && s[0] == '['
    ensures ParseInt(s).None?
  {
    assert !IsTrimmable(s[0]);
    assert SkipForward(s, 0) == 0;
    assert TrimStart(s) == s;
    assert DigitValue(s[0], 10).None?;
    assert DigitRun(s, 10) == 0;
  }

  /** `parseInt(s) || fallback`: NaN and zero are falsy, so both give the fallback. */
  function ParseIntOr(s: string, fallback: int): (r: int)
    ensures ParseInt(s).None? ==> r == fallback
    ensures ParseInt(s).Some? ==> r == if ParseInt(s).value == 0 then fallback else ParseInt(s).value
  {
    match ParseInt(s)
    case Some(n) => if n == 0 then fallback else n
    case None => fallback
  }

  /** A digit character reads back as its digit. */
  lemma DigitCharValue(d: nat)
    requires d < 10
    ensures DigitValue(DigitChar(d), 10) == Some(d)
  {
    assert DigitChar(d) as int == '0' as int + d by {
      if d < 5 {
        assert d == 0 || d == 1 || d == 2 || d == 3 || d == 4;
      } else {
        assert d == 5 || d == 6 || d == 7 || d == 8 || d == 9;
      }
    }
  }

  /** The decimal text of a natural number is a run of digits denoting it. */
  lemma {:induction false} DigitsValueOfNat(n: nat)
    ensures forall i :: 0 <= i < |NatToString(n)| ==> DigitValue(NatToString(n)[i], 10).Some?
    ensures DigitsValue(NatToString(n), 10) == n
  {
    var s := NatToString(n);
    forall i | 0 <= i < |s| ensures DigitValue(s[i], 10).Some? {
      assert '0' <= s[i] <= '9';
    }
    if n < 10 {
      DigitCharValue(n);
      assert s[..0] == [];
    } else {
      var init := NatToString(n / 10);
      DigitsValueOfNat(n / 10);
      DigitCharValue(n % 10);
      assert s == init + [DigitChar(n % 10)];
      assert s[..|s| - 1] == init;
      assert DigitsValue(s, 10) == DigitsValue(init, 10) * 10 + n % 10;
    }
  }

  /** A non-empty run of decimal digits is read whole by `ParseUnsigned`. */
  lemma ParseUnsignedOfDigits(s: string)
    requires |s| >= 1 && forall i :: 0 <= i < |s| ==> '0' <= s[i] <= '9'
    ensures ParseUnsigned(s) == Some(DigitsValue(s, 10))
  {
    assert !(|s| >= 2 && s[0] == '0' && (s[1] == 'x' || s[1] == 'X')) by {
      if |s| >= 2 { assert '0' <= s[1] <= '9'; }
    }
    assert forall i :: 0 <= i < |s| ==> DigitValue(s[i], 10).Some?;
    assert DigitRun(s, 10) == |s|;
    assert s[..|s|] == s;
  }

  /** A text that starts with a sign or a digit has no leading whitespace to skip. */
  lemma TrimStartOfSignOrDigit(t: string)
    requires |t| > 0 && (t[0] == '-' || '0' <= t[0] <= '9')
    ensures TrimStart(t) == t
  {
    assert !IsTrimmable(t[0]);
    assert SkipForward(t, 0) == 0;
  }

  /** `parseInt` of a text with no leading whitespace and no sign is its unsigned parse. */
  lemma ParseIntUnsigned(t: string)
    requires |t| > 0 && '0' <= t[0] <= '9'
    ensures ParseInt(t) == match ParseUnsigned(t) case None => None case Some(v) => Some(v as int)
  {
    TrimStartOfSignOrDigit(t);
    assert t[0] != '-' && t[0] != '+';
  }

  /** `parseInt` of `-` and a text is the negated unsigned parse of that text. */
  lemma ParseIntNegative(t: string)
    requires |t| > 0 && t[0] == '-'
    ensures ParseInt(t) == match ParseUnsigned(t[1..]) case None => None case Some(v) => Some(-(v as int))
  {
    TrimStartOfSignOrDigit(t);
    var u := TrimStart(t);
    assert u == t;
    assert |u| > 0 && u[0] == '-';
  }

  /** The decimal text of an integer reads back as that integer. */
  lemma ParseIntOfIntToString(n: int)
    ensures ParseInt(IntToString(n)) == Some(n)
  {
    var m: nat := if n < 0 then -n else n;
    var s := NatToString(m);
    DigitsValueOfNat(m);
    ParseUnsignedOfDigits(s);
    if n < 0 {
      var t := "-" + s;
      assert IntToString(n) == t;
      assert t[1..] == s;
      ParseIntNegative(t);
    } else {
      assert IntToString(n) == s;
      ParseIntUnsigned(s);
    }
  }
}
