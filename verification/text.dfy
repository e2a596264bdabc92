/** The few Python string operations the scripts rely on: `str.strip`,
    `str.split` on one character, `in`, and the fixed-width decimal fields
    that `strftime` produces.
 */
module Text {
  import opened Seqs

  /** Python's `str.isspace` on one character: the ASCII blanks and control
      separators plus the Unicode space separators. */
  predicate IsSpace(c: char)
  {
    || c == ' '
    || ('\t' <= c <= '\r')
    || ('\U{1C}' <= c <= '\U{1F}')
    || c == '\U{85}'
    || c == '\U{A0}'
    || c == '\U{1680}'
    || ('\U{2000}' <= c <= '\U{200A}')
    || c == '\U{2028}'
    || c == '\U{2029}'
    || c == '\U{202F}'
    || c == '\U{205F}'
    || c == '\U{3000}'
  }

  predicate IsDigit(c: char)
  {
    '0' <= c <= '9'
  }

  predicate AllDigits(s: string)
  {
    forall i :: 0 <= i < |s| ==> IsDigit(s[i])
  }

  /** A string with nothing for `strip` to remove. */
  predicate Stripped(s: string)
  {
    |s| == 0 || (!IsSpace(s[0]) && !IsSpace(s[|s| - 1]))
  }

  /** Number of occurrences of `c` in `s`. */
  function Count(s: string, c: char): nat
  {
    if |s| == 0 then 0
    else Count(s[..|s| - 1], c) + (if s[|s| - 1] == c then 1 else 0)
  }

  lemma {:induction false} CountAppend(a: string, b: string, c: char)
    ensures Count(a + b, c) == Count(a, c) + Count(b, c)
    decreases |b|
  {
    if |b| == 0 {
      assert a + b == a;
    } else {
      var b' := b[..|b| - 1];
      assert (a + b)[..|a + b| - 1] == a + b';
      CountAppend(a, b', c);
    }
  }

  lemma {:induction false} CountZero(s: string, c: char)
    ensures Count(s, c) == 0 <==> c !in s
    decreases |s|
  {
    if |s| > 0 {
      var s' := s[..|s| - 1];
      CountZero(s', c);
      assert s == s' + [s[|s| - 1]];
      assert c in s <==> c in s' || s[|s| - 1] == c;
    }
  }

  /** `sep.join(parts)` for a one-character separator. */
  function Join(parts: seq<string>, sep: char): string
  {
    if |parts| == 0 then ""
    else if |parts| == 1 then parts[0]
    else parts[0] + [sep] + Join(parts[1..], sep)
  }

  /** Python's `s.split(sep)` for a one-character separator: there is always
      one part more than there are separators, no part holds the separator,
      and joining the parts back gives `s`. */
  function Split(s: string, sep: char): (parts: seq<string>)
    ensures |parts| == Count(s, sep) + 1
    ensures forall i :: 0 <= i < |parts| ==> sep !in parts[i]
    ensures Join(parts, sep) == s
    decreases |s|
  {
    if sep !in s then
      CountZero(s, sep);
      [s]
    else
      var i := Position(s, sep);
      var rest := Split(s[i + 1..], sep);
      assert s == s[..i] + [sep] + s[i + 1..];
      CountAppend(s[..i] + [sep], s[i + 1..], sep);
      CountAppend(s[..i], [sep], sep);
      assert [sep][..0] == [];
      CountZero(s[..i], sep);
      [s[..i]] + rest
  }

  /** `str.lstrip()`: the longest suffix of `s` that does not start with
      whitespace; everything cut off is whitespace. */
  function LStrip(s: string): (r: string)
    ensures |r| <= |s| && r == s[|s| - |r|..]
    ensures forall i :: 0 <= i < |s| - |r| ==> IsSpace(s[i])
    ensures |r| == 0 || !IsSpace(r[0])
  {
    if |s| > 0 && IsSpace(s[0]) then LStrip(s[1..]) else s
  }

  /** `str.rstrip()`: the longest prefix of `s` that does not end with
      whitespace; everything cut off is whitespace. */
  function RStrip(s: string): (r: string)
    ensures |r| <= |s| && r == s[..|r|]
    ensures forall i :: |r| <= i < |s| ==> IsSpace(s[i])
    ensures |r| == 0 || !IsSpace(r[|r| - 1])
  {
    if |s| > 0 && IsSpace(s[|s| - 1]) then RStrip(s[..|s| - 1]) else s
  }

  /** `s[i..i + |r|]` is `r` and everything of `s` around it is whitespace. */
  predicate Trims(s: string, i: int, r: string)
  {
    && 0 <= i <= i + |r| <= |s|
    && r == s[i..i + |r|]
    && (forall j :: 0 <= j < i ==> IsSpace(s[j]))
    && (forall j :: i + |r| <= j < |s| ==> IsSpace(s[j]))
  }

  /** `str.strip()`: removes whitespace at both ends and nothing else. The
      result is a slice of `s` with only whitespace around it, and has no
      whitespace left at either end. */
  function Strip(s: string): (r: string)
    ensures Stripped(r)
    ensures exists i :: Trims(s, i, r)
  {
    var m := RStrip(s);
    var r := LStrip(m);
    var i := |m| - |r|;
    assert r == s[i..i + |r|] by {
      assert m == s[..|m|];
    }
    assert forall j :: 0 <= j < i ==> IsSpace(s[j]) by {
      assert forall j :: 0 <= j < i ==> m[j] == s[j];
    }
    assert Trims(s, i, r);
    r
  }

  /** A slice with only whitespace around it and none at its ends is what
      `strip` returns: `Strip` is the only such slice. */
  lemma {:induction false} StripUnique(s: string, i: int, r: string)
    requires Trims(s, i, r) && Stripped(r)
    ensures r == Strip(s)
  {
    var i' :| Trims(s, i', Strip(s));
    TrimsUnique(s, i, r, i', Strip(s));
  }

  /** Two stripped slices with only whitespace around them are the same. */
  lemma {:induction false} TrimsUnique(s: string, i: int, r: string, i': int, r': string)
    requires Trims(s, i, r) && Stripped(r)
    requires Trims(s, i', r') && Stripped(r')
    ensures r == r'
  {
    if |r| > 0 && |r'| > 0 {
      assert s[i] == r[0] && s[i'] == r'[0];
      assert i == i';
      assert s[i + |r| - 1] == r[|r| - 1] && s[i' + |r'| - 1] == r'[|r'| - 1];
      assert |r| == |r'|;
    }
  }

  /** Around a character that is not whitespace, `strip` cuts only the
      whitespace in front of the text before it and behind the text after
      it. */
  lemma {:induction false} StripAround(a: string, c: char, b: string)
    requires !IsSpace(c)
    ensures Strip(a + [c] + b) == LStrip(a) + [c] + RStrip(b)
  {
    TrimsAround(a, c, b, LStrip(a), RStrip(b));
    StripUnique(a + [c] + b, |a| - |LStrip(a)|, LStrip(a) + [c] + RStrip(b));
  }

  /** A stripped suffix of `a`, then `c`, then a stripped prefix of `b`,
      with only whitespace cut off on either side, is what `strip` keeps of
      `a + [c] + b`. */
  lemma {:induction false} TrimsAround(a: string, c: char, b: string, la: string, rb: string)
    requires !IsSpace(c)
    requires |la| <= |a| && la == a[|a| - |la|..] && (|la| == 0 || !IsSpace(la[0]))
    requires forall k :: 0 <= k < |a| - |la| ==> IsSpace(a[k])
    requires |rb| <= |b| && rb == b[..|rb|] && (|rb| == 0 || !IsSpace(rb[|rb| - 1]))
    requires forall k :: |rb| <= k < |b| ==> IsSpace(b[k])
    ensures Trims(a + [c] + b, |a| - |la|, la + [c] + rb) && Stripped(la + [c] + rb)
  {
    SliceAround(a, c, b, la, rb);
    SpacesAround(a, c, b, |a| - |la|, |rb|);
    var r := la + [c] + rb;
    assert Stripped(r) by {
      assert r[0] == if |la| > 0 then la[0] else c;
      assert r[|r| - 1] == if |rb| > 0 then rb[|rb| - 1] else c;
    }
  }

  /** A suffix of `a`, then `c`, then a prefix of `b` is a slice of
      `a + [c] + b`. */
  lemma {:induction false} SliceAround(a: string, c: char, b: string, la: string, rb: string)
    requires |la| <= |a| && la == a[|a| - |la|..]
    requires |rb| <= |b| && rb == b[..|rb|]
    ensures var i := |a| - |la|;
            var r := la + [c] + rb;
            i + |r| <= |a + [c] + b| && r == (a + [c] + b)[i..i + |r|]
  {
    var s := a + [c] + b;
    var r := la + [c] + rb;
    var i := |a| - |la|;
    forall k | 0 <= k < |r|
      ensures r[k] == s[i + k]
    {
      if k < |la| {
        assert r[k] == la[k] == a[i + k];
      } else if k > |la| {
        assert r[k] == rb[k - |la| - 1] == b[k - |la| - 1];
      }
    }
  }

  /** Whitespace before position `i` of `a` and from position `m` of `b`
      is whitespace before and after the middle of `a + [c] + b`. */
  lemma {:induction false} SpacesAround(a: string, c: char, b: string, i: nat, m: nat)
    requires i <= |a| && m <= |b|
    requires forall k :: 0 <= k < i ==> IsSpace(a[k])
    requires forall k :: m <= k < |b| ==> IsSpace(b[k])
    ensures var s := a + [c] + b;
            && (forall k :: 0 <= k < i ==> IsSpace(s[k]))
            && (forall k :: |a| + 1 + m <= k < |s| ==> IsSpace(s[k]))
  {
    var s := a + [c] + b;
    assert forall k :: 0 <= k < i ==> s[k] == a[k];
    assert forall k :: |a| + 1 + m <= k < |s| ==> s[k] == b[k - |a| - 1];
  }

  /** Whitespace cut off first does not change what `strip` returns. */
  lemma {:induction false} StripOfSlice(s: string, i: int, j: int)
    requires 0 <= i <= j <= |s|
    requires forall k :: 0 <= k < i ==> IsSpace(s[k])
    requires forall k :: j <= k < |s| ==> IsSpace(s[k])
    ensures Strip(s[i..j]) == Strip(s)
  {
    var i' :| Trims(s[i..j], i', Strip(s[i..j]));
    var i'' :| Trims(s, i'', Strip(s));
    SameTrims(s, i, j, i', Strip(s[i..j]), i'', Strip(s));
  }

  lemma {:induction false} StripOfLStrip(s: string)
    ensures Strip(LStrip(s)) == Strip(s)
  {
    var n := |s| - |LStrip(s)|;
    assert s[n..|s|] == LStrip(s);
    StripOfSlice(s, n, |s|);
  }

  lemma {:induction false} StripOfRStrip(s: string)
    ensures Strip(RStrip(s)) == Strip(s)
  {
    var r := RStrip(s);
    assert s[0..|r|] == r;
    StripOfSlice(s, 0, |r|);
  }

  /** A slice trimmed out of a slice with only whitespace around it is
      trimmed out of the whole text. */
  /** What `strip` keeps of a slice with only whitespace around it is what
      it keeps of the whole. */
  lemma {:induction false} SameTrims(s: string, i: int, j: int, i': int, r: string, i'': int, r': string)
    requires 0 <= i <= j <= |s|
    requires forall k :: 0 <= k < i ==> IsSpace(s[k])
    requires forall k :: j <= k < |s| ==> IsSpace(s[k])
    requires Trims(s[i..j], i', r) && Stripped(r)
    requires Trims(s, i'', r') && Stripped(r')
    ensures r == r'
  {
    TrimsWithin(s, i, j, i', r);
    TrimsUnique(s, i + i', r, i'', r');
  }

  lemma {:induction false} TrimsWithin(s: string, i: int, j: int, i': int, r: string)
    requires 0 <= i <= j <= |s|
    requires forall k :: 0 <= k < i ==> IsSpace(s[k])
    requires forall k :: j <= k < |s| ==> IsSpace(s[k])
    requires Trims(s[i..j], i', r)
    ensures Trims(s, i + i', r)
  {
    var t := s[i..j];
    var a := i + i';
    assert forall k :: 0 <= k < |r| ==> r[k] == t[i' + k] == s[a + k];
    assert forall k :: i <= k < j ==> s[k] == t[k - i];
  }

  /** `strip` removes only whitespace, so it keeps every other character's
      occurrences. */
  lemma {:induction false} StripKeepsCount(s: string, c: char)
    requires !IsSpace(c)
    ensures Count(Strip(s), c) == Count(s, c)
    ensures c in Strip(s) <==> c in s
  {
    RStripKeepsCount(s, c);
    LStripKeepsCount(RStrip(s), c);
    CountZero(Strip(s), c);
    CountZero(s, c);
  }

  lemma {:induction false} RStripKeepsCount(s: string, c: char)
    requires !IsSpace(c)
    ensures Count(RStrip(s), c) == Count(s, c)
    decreases |s|
  {
    if |s| > 0 && IsSpace(s[|s| - 1]) {
      RStripKeepsCount(s[..|s| - 1], c);
    }
  }

  lemma {:induction false} LStripKeepsCount(s: string, c: char)
    requires !IsSpace(c)
    ensures Count(LStrip(s), c) == Count(s, c)
    decreases |s|
  {
    if |s| > 0 && IsSpace(s[0]) {
      LStripKeepsCount(s[1..], c);
      assert s == [s[0]] + s[1..];
      CountAppend([s[0]], s[1..], c);
      assert Count([s[0]], c) == 0 by {
        assert [s[0]][..0] == [];
      }
    }
  }

  /** If `a + [c] + b == a' + [c] + b'` and neither `a` nor `a'` holds `c`,
      the split point is the same. */
  lemma {:induction false} SplitPointUnique(a: string, b: string, a': string, b': string, c: char)
    requires a + [c] + b == a' + [c] + b'
    requires c !in a && c !in a'
    ensures a == a' && b == b'
  {
    var s := a + [c] + b;
    assert s[|a|] == c && s[|a'|] == c;
    assert forall j :: 0 <= j < |a| ==> s[j] == a[j];
    assert forall j :: 0 <= j < |a'| ==> s[j] == a'[j];
    assert |a| == |a'|;
    assert a == s[..|a|] == a';
    assert b == s[|a| + 1..] == b';
  }

  /** A string with one separator splits into the text before and after it. */
  lemma {:induction false} SplitAtOnlySeparator(a: string, b: string, c: char)
    requires c !in a && c !in b
    ensures Split(a + [c] + b, c) == [a, b]
  {
    var s := a + [c] + b;
    var parts := Split(s, c);
    CountAppend(a + [c], b, c);
    CountAppend(a, [c], c);
    assert [c][..0] == [];
    CountZero(a, c);
    CountZero(b, c);
    assert |parts| == 2;
    assert Join(parts, c) == parts[0] + [c] + parts[1];
    SplitPointUnique(parts[0], parts[1], a, b, c);
  }

  lemma {:induction false} StripOfStripped(s: string)
    requires Stripped(s)
    ensures Strip(s) == s
  {
  }

  /** A trailing newline, as read from a file, is whitespace to `strip`. */
  lemma {:induction false} StripNewline(s: string)
    requires Stripped(s)
    ensures Strip(s + "\n") == s
  {
    var t := s + "\n";
    assert t[..|t| - 1] == s;
    assert RStrip(t) == RStrip(s);
  }

  function Pow10(n: nat): (p: nat)
    ensures p >= 1
  {
    if n == 0 then 1 else 10 * Pow10(n - 1)
  }

  function DigitChar(d: nat): char
    requires d < 10
  {
    ('0' as int + d) as char
  }

  function DigitValue(c: char): nat
    requires IsDigit(c)
  {
    (c as int - '0' as int) as nat
  }

  /** `n` written in decimal, left-padded with zeros to `width` characters
      (the `%Y`, `%m`, `%d`, `%H`, `%M`, `%S` fields of `strftime`). */
  function Digits(n: nat, width: nat): (r: string)
    ensures |r| == width
    ensures AllDigits(r)
  {
    if width == 0 then ""
    else Digits(n / 10, width - 1) + [DigitChar(n % 10)]
  }

  /** The value of a decimal digit string. */
  function Number(s: string): nat
    requires AllDigits(s)
  {
    if |s| == 0 then 0
    else Number(s[..|s| - 1]) * 10 + DigitValue(s[|s| - 1])
  }

  /** Reading back a zero-padded field gives the number it was written from,
      as long as the number fits in the field. */
  lemma {:induction false} NumberOfDigits(n: nat, width: nat)
    requires n < Pow10(width)
    ensures Number(Digits(n, width)) == n
  {
    if width > 0 {
      var q, d := n / 10, n % 10;
      ShiftFits(n, width);
      NumberOfDigits(q, width - 1);
      var s := Digits(n, width);
      assert s == Digits(q, width - 1) + [DigitChar(d)];
      assert s[..|s| - 1] == Digits(q, width - 1);
      assert DigitValue(s[|s| - 1]) == d;
    }
  }

  /** Dropping the last digit leaves a number that fits one place less. */
  lemma {:induction false} ShiftFits(n: nat, width: nat)
    requires width > 0 && n < Pow10(width)
    ensures n / 10 < Pow10(width - 1)
  {
    var p := Pow10(width - 1);
    assert Pow10(width) == 10 * p;
  }
}
