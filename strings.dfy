/**
  The few operations on Python strings that the kernel relies on, written out
  over `seq<char>`: `str.split('\n')` and its inverse `'\n'.join`, `str.strip()`
  (with `unicode.isspace()`), `str.startswith`, the slice `s[1:]`, and the decimal
  formatting of a non-negative integer used by `"{0}".format(pid)`.
 */
module PyStrings {

  /**
    `unicode.isspace()` of Python 2.7, the interpreter the kernel runs under:
    the characters that `unicode.strip()` removes.  Python 2.7's Unicode
    database still counts U+180E MONGOLIAN VOWEL SEPARATOR as a space.
   */
  predicate IsSpace(c: char) {
    ('\t' <= c <= '\r') || ('\U{1C}' <= c <= '\U{1F}') || c == ' ' ||
    c == '\U{85}' || c == '\U{A0}' || c == '\U{1680}' || c == '\U{180E}' ||
    ('\U{2000}' <= c <= '\U{200A}') || c == '\U{2028}' || c == '\U{2029}' ||
    c == '\U{202F}' || c == '\U{205F}' || c == '\U{3000}'
  }

  predicate AllSpace(s: string) {
    forall i :: 0 <= i < |s| ==> IsSpace(s[i])
  }

  /** `s.lstrip()`: drops the leading whitespace and nothing else. */
  function TrimLeft(s: string): (r: string)
    ensures |r| <= |s| && r == s[|s| - |r|..]
    ensures AllSpace(s[..|s| - |r|])
    ensures r == [] || !IsSpace(r[0])
    decreases |s|
  {
    if s != [] && IsSpace(s[0]) then TrimLeft(s[1..]) else s
  }

  /** `s.rstrip()`: drops the trailing whitespace and nothing else. */
  function TrimRight(s: string): (r: string)
    ensures |r| <= |s| && r == s[..|r|]
    ensures AllSpace(s[|r|..])
    ensures r == [] || !IsSpace(r[|r| - 1])
    decreases |s|
  {
    if s != [] && IsSpace(s[|s| - 1]) then
      var r := TrimRight(s[..|s| - 1]);
      assert s[|r|..] == s[..|s| - 1][|r|..] + [s[|s| - 1]];
      r
    else s
  }

  /** `s.strip()`: what is left neither starts nor ends with whitespace. */
  function Strip(s: string): (r: string)
    ensures |r| <= |s|
    ensures r == [] || (!IsSpace(r[0]) && !IsSpace(r[|r| - 1]))
  {
    TrimRight(TrimLeft(s))
  }

  /** `strip()` leaves a slice of `s` with a whitespace-only margin at each end. */
  lemma {:induction false} StripIsSlice(s: string)
    ensures exists i, j :: 0 <= i <= j <= |s| && Strip(s) == s[i..j] && AllSpace(s[..i]) && AllSpace(s[j..])
  {
    var l := TrimLeft(s);
    SliceOfSuffix(s, l, TrimRight(l));
  }

  /**
    A prefix `r` of a suffix `l` of `s` is a slice of `s`; whitespace before
    `l` and after `r` in `l` is whitespace around that slice.
   */
  lemma {:induction false} SliceOfSuffix(s: string, l: string, r: string)
    requires |l| <= |s| && l == s[|s| - |l|..] && AllSpace(s[..|s| - |l|])
    requires |r| <= |l| && r == l[..|r|] && AllSpace(l[|r|..])
    ensures var i := |s| - |l|;
      i + |r| <= |s| && r == s[i..i + |r|] && AllSpace(s[..i]) && AllSpace(s[i + |r|..])
  {
    var i := |s| - |l|;
    assert s[i + |r|..] == l[|r|..];
  }

  /** `not s.strip()`: the test `do_execute` uses to recognise an empty cell. */
  predicate IsBlank(s: string) {
    Strip(s) == []
  }

  /** A string strips to nothing exactly when every character of it is whitespace. */
  lemma BlankIffAllSpace(s: string)
    ensures IsBlank(s) <==> AllSpace(s)
  {
    var l := TrimLeft(s);
    var k := |s| - |l|;
    if IsBlank(s) {
      assert AllSpace(l[|TrimRight(l)|..]);
      assert s[..k] == s;
    } else {
      var r := TrimRight(l);
      assert r != [] && !IsSpace(r[0]);
      assert r[0] == l[0] == s[k];
    }
  }

  /** `s.startswith(p)`. */
  predicate StartsWith(s: string, p: string) {
    |p| <= |s| && s[..|p|] == p
  }

  /** The Python slice `s[1:]`, which is empty (not an error) on an empty string. */
  function DropFirst(s: string): (r: string)
    ensures s == [] ==> r == []
    ensures s != [] ==> s == [s[0]] + r
  {
    if s == [] then [] else s[1..]
  }

  // ---------------------------------------------------------------------------
  // s.split('\n') and '\n'.join(pieces)

  /**
    `s.split('\n')`: the pieces of `s` between newline characters, in order.
    There is always at least one piece (`"".split('\n') == [""]`), and no
    piece contains a newline.
   */
  function Split(s: string): (r: seq<string>)
    ensures |r| >= 1
    ensures forall i :: 0 <= i < |r| ==> '\n' !in r[i]
    decreases |s|
  {
    if s == [] then [[]]
    else
      var rest := Split(s[1..]);
      if s[0] == '\n' then [[]] + rest
      else [[s[0]] + rest[0]] + rest[1..]
  }

  /** `'\n'.join(pieces)`. */
  function Join(pieces: seq<string>): string
    decreases |pieces|
  {
    if |pieces| == 0 then []
    else if |pieces| == 1 then pieces[0]
    else pieces[0] + "\n" + Join(pieces[1..])
  }

  /** Joining the pieces of a split gives back the original string. */
  lemma {:induction false} JoinSplit(s: string)
    ensures Join(Split(s)) == s
    decreases |s|
  {
    if s != [] {
      var rest := Split(s[1..]);
      JoinSplit(s[1..]);
      if s[0] == '\n' {
        assert ([[]] + rest)[1..] == rest;
      } else {
        JoinPrepend(s[0], rest);
      }
      assert s == [s[0]] + s[1..];
    }
  }

  /** Putting a character in front of the first piece puts it in front of the join. */
  lemma {:induction false} JoinPrepend(c: char, pieces: seq<string>)
    requires |pieces| >= 1
    ensures Join([[c] + pieces[0]] + pieces[1..]) == [c] + Join(pieces)
  {
    var longer := [[c] + pieces[0]] + pieces[1..];
    assert longer[0] == [c] + pieces[0];
    if |pieces| > 1 {
      var tail := Join(pieces[1..]);
      assert longer[1..] == pieces[1..];
      assert Join(longer) == ([c] + pieces[0]) + "\n" + tail;
      assert Join(pieces) == pieces[0] + "\n" + tail;
      assert [c] + (pieces[0] + "\n" + tail) == ([c] + pieces[0]) + "\n" + tail;
    }
  }

  /** Splitting a join of newline-free pieces gives back the pieces. */
  lemma {:induction false} SplitJoin(pieces: seq<string>)
    requires |pieces| >= 1
    requires forall i :: 0 <= i < |pieces| ==> '\n' !in pieces[i]
    ensures Split(Join(pieces)) == pieces
    decreases |Join(pieces)|
  {
    var head := pieces[0];
    if head == [] {
      if |pieces| > 1 {
        var tail := pieces[1..];
        assert Join(pieces) == "\n" + Join(tail);
        SplitJoin(tail);
        assert ("\n" + Join(tail))[1..] == Join(tail);
        assert pieces == [[]] + tail;
      }
    } else {
      var shorter := [head[1..]] + pieces[1..];
      assert shorter[1..] == pieces[1..];
      assert Join(pieces) == [head[0]] + Join(shorter) by {
        assert head == [head[0]] + head[1..];
        if |pieces| > 1 {
          assert Join(shorter) == head[1..] + "\n" + Join(pieces[1..]);
        }
      }
      assert '\n' !in head[1..] by {
        assert forall c :: c in head[1..] ==> c in head;
      }
      SplitJoin(shorter);
      assert (([head[0]] + Join(shorter))[1..]) == Join(shorter);
      assert head[0] != '\n' by { assert head[0] in head; }
      assert head == [head[0]] + head[1..];
    }
  }

  // ---------------------------------------------------------------------------
  // Decimal formatting, as `"{0}".format(n)` writes a non-negative integer

  const Digits: string := "0123456789"

  predicate IsDigit(c: char) {
    '0' <= c <= '9'
  }

  /** The decimal numeral of `n`, without sign or leading zeros. */
  function DecimalString(n: nat): string {
    if n < 10 then [Digits[n]] else DecimalString(n / 10) + [Digits[n % 10]]
  }

  /** The numeral is a non-empty string of digits that starts with `0` only for zero itself. */
  lemma {:induction false} DecimalStringDigits(n: nat)
    ensures var s := DecimalString(n);
      |s| >= 1 && (forall i :: 0 <= i < |s| ==> IsDigit(s[i])) && (s[0] == '0' ==> n == 0)
  {
    if n >= 10 {
      DecimalStringDigits(n / 10);
    }
  }

  /** The value of a string of decimal digits. */
  function ParseDecimal(s: string): nat
    requires forall i :: 0 <= i < |s| ==> IsDigit(s[i])
    decreases |s|
  {
    if s == [] then 0
    else 10 * ParseDecimal(s[..|s| - 1]) + DigitValue(s[|s| - 1])
  }

  /** The value of one decimal digit. */
  function DigitValue(c: char): (d: nat)
    requires IsDigit(c)
    ensures d < 10
  {
    assert '0' as int <= c as int <= '9' as int;
    c as int - '0' as int
  }

  lemma DigitValueOfDigits(d: nat)
    requires d < 10
    ensures DigitValue(Digits[d]) == d
  {
  }

  /** Reading back the numeral that DecimalString writes gives the number. */
  lemma {:induction false} ParseDecimalString(n: nat)
    ensures var s := DecimalString(n);
      (forall i :: 0 <= i < |s| ==> IsDigit(s[i])) && ParseDecimal(s) == n
  {
    var s := DecimalString(n);
    DecimalStringDigits(n);
    if n < 10 {
      DigitValueOfDigits(n);
      assert s[..0] == [];
    } else {
      var prefix := DecimalString(n / 10);
      DecimalStringDigits(n / 10);
      assert s[..|s| - 1] == prefix;
      ParseDecimalString(n / 10);
      DigitValueOfDigits(n % 10);
    }
  }
}
