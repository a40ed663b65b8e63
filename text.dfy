/**
 * Strings as the dashboard code uses them: decimal rendering of numbers
 * (JavaScript `toString`, Python `str`), `padStart`, `join`, `split` on one
 * character, JavaScript's `<` on strings, and ASCII upper-casing.
 * Decimal parsing is the partner of rendering: every rendering is proved to
 * parse back to the number it came from.
 */
module Text {
  import opened Wrappers

  predicate IsDigit(c: char) { '0' <= c <= '9' }

  predicate AllDigits(s: string) { forall i :: 0 <= i < |s| ==> IsDigit(s[i]) }

  function DigitValue(c: char): nat
    requires IsDigit(c)
  {
    c as int - '0' as int
  }

  function DigitChar(d: nat): (c: char)
    requires d < 10
    ensures IsDigit(c) && DigitValue(c) == d
  {
    ('0' as int + d) as char
  }

  /** Decimal rendering of a natural number, without leading zeros. */
  function NatToString(n: nat): (s: string)
    ensures |s| >= 1 && AllDigits(s)
    ensures |s| == 1 <==> n < 10
    ensures n > 0 ==> s[0] != '0'
    decreases n
  {
    if n < 10 then [DigitChar(n)] else NatToString(n / 10) + [DigitChar(n % 10)]
  }

  /** Value of a string of decimal digits, most significant first. */
  function DigitsValue(s: string): nat
    requires AllDigits(s)
    decreases |s|
  {
    if |s| == 0 then 0 else DigitsValue(s[..|s| - 1]) * 10 + DigitValue(s[|s| - 1])
  }

  /** A non-empty string of digits and its value; anything else is refused. */
  function ParseNat(s: string): (r: Option<nat>)
    ensures r.Some? <==> |s| > 0 && AllDigits(s)
  {
    if |s| > 0 && AllDigits(s) then Some(DigitsValue(s)) else None
  }

  lemma {:induction false} DigitsValueOfNatToString(n: nat)
    ensures DigitsValue(NatToString(n)) == n
    decreases n
  {
    if n >= 10 {
      var s := NatToString(n);
      assert s[..|s| - 1] == NatToString(n / 10);
      DigitsValueOfNatToString(n / 10);
    }
  }

  function Pow10(k: nat): (p: nat)
    ensures p >= 1
  {
    if k == 0 then 1 else 10 * Pow10(k - 1)
  }

  /** A string of `k` digits has a value below `10^k`. */
  lemma {:induction false} DigitsValueBound(s: string)
    requires AllDigits(s)
    ensures DigitsValue(s) < Pow10(|s|)
    decreases |s|
  {
    if |s| > 0 { DigitsValueBound(s[..|s| - 1]); }
  }

  /** Rendering a natural number and reading it back gives the number. */
  lemma {:induction false} ParseNatOfNatToString(n: nat)
    ensures ParseNat(NatToString(n)) == Some(n)
  {
    DigitsValueOfNatToString(n);
  }

  /** Decimal rendering of an integer: a minus sign before negative values. */
  function IntToString(i: int): (s: string)
    ensures |s| >= 1
    ensures i < 0 <==> s[0] == '-'
  {
    if i < 0 then "-" + NatToString(-i) else NatToString(i)
  }

  /** An optionally signed string of digits and its value. */
  function ParseInt(s: string): (r: Option<int>)
    ensures |s| > 0 && AllDigits(s) ==> r == Some(DigitsValue(s))
    ensures |s| == 0 ==> r.None?
  {
    if |s| > 0 && (s[0] == '-' || s[0] == '+') then
      match ParseNat(s[1..])
      case Some(n) => Some(if s[0] == '-' then 0 - n else n)
      case None => None
    else
      match ParseNat(s)
      case Some(n) => Some(n)
      case None => None
  }

  lemma {:induction false} ParseIntOfIntToString(i: int)
    ensures ParseInt(IntToString(i)) == Some(i)
  {
    var s := IntToString(i);
    if i < 0 {
      assert s[1..] == NatToString(-i) by { assert s == "-" + NatToString(-i); }
      ParseNatOfNatToString(-i);
    } else {
      assert s == NatToString(i);
      ParseNatOfNatToString(i);
    }
  }

  /** JavaScript `padStart(width, c)`: fill on the left up to `width` characters. */
  function PadStart(s: string, width: nat, c: char): (r: string)
    ensures |r| == if |s| >= width then |s| else width
    ensures r[|r| - |s|..] == s
    ensures forall i :: 0 <= i < |r| - |s| ==> r[i] == c
  {
    if |s| >= width then s else seq(width - |s|, _ => c) + s
  }

  lemma {:induction false} DigitsValueOfZeros(k: nat)
    ensures AllDigits(seq(k, _ => '0')) && DigitsValue(seq(k, _ => '0')) == 0
  {
    if k > 0 {
      assert seq(k, _ => '0')[..k - 1] == seq(k - 1, _ => '0');
      DigitsValueOfZeros(k - 1);
    }
  }

  lemma {:induction false} LeadingZerosDoNotCount(k: nat, s: string)
    requires AllDigits(s)
    ensures AllDigits(seq(k, _ => '0') + s)
    ensures DigitsValue(seq(k, _ => '0') + s) == DigitsValue(s)
    decreases |s|
  {
    var z := seq(k, _ => '0');
    DigitsValueOfZeros(k);
    if |s| == 0 {
      assert z + s == z;
    } else {
      var t := z + s;
      assert t[..|t| - 1] == z + s[..|s| - 1];
      LeadingZerosDoNotCount(k, s[..|s| - 1]);
    }
  }

  /** A number zero-padded to any width reads back as the number. */
  lemma {:induction false} ParseNatOfPadded(n: nat, width: nat)
    ensures ParseNat(PadStart(NatToString(n), width, '0')) == Some(n)
  {
    var s := NatToString(n);
    DigitsValueOfNatToString(n);
    if |s| < width {
      LeadingZerosDoNotCount(width - |s|, s);
    }
  }

  /** Appending a digit multiplies the value by ten and adds the digit. */
  lemma {:induction false} DigitsValueSnoc(s: string, c: char)
    requires AllDigits(s) && IsDigit(c)
    ensures AllDigits(s + [c]) && DigitsValue(s + [c]) == DigitsValue(s) * 10 + DigitValue(c)
  {
    assert (s + [c])[..|s|] == s;
  }

  /** Padding a text that ends in `c` is padding the rest one narrower, then `c`. */
  lemma {:induction false} PadSnoc(s: string, c: char, width: nat)
    requires width >= 1
    ensures PadStart(s + [c], width, '0') == PadStart(s, width - 1, '0') + [c]
  {
    var r, q := PadStart(s + [c], width, '0'), PadStart(s, width - 1, '0') + [c];
    assert |r| == |q|;
    forall i | 0 <= i < |r| ensures r[i] == q[i] {
      if i != |r| - 1 && i >= |r| - |s| - 1 {
        assert r[i] == (s + [c])[i - (|r| - |s| - 1)];
      }
    }
  }

  /** A one-digit number padded to `width` is `width - 1` zeros and its digit. */
  lemma {:induction false} PadDigit(n: nat, width: nat)
    requires n < 10 && width >= 2
    ensures PadStart(NatToString(n), width, '0') == PadStart("0", width - 1, '0') + [DigitChar(n)]
  {
    var r := PadStart(NatToString(n), width, '0');
    var q := PadStart("0", width - 1, '0') + [DigitChar(n)];
    assert |r| == |q| == width;
    forall i | 0 <= i < width ensures r[i] == q[i] {
      if i < width - 1 {
        assert r[i] == '0';
      }
    }
  }

  /** Padding the rendering of `n` is padding the rendering of `n / 10`, one narrower, then the last digit. */
  lemma {:induction false} PadStep(n: nat, width: nat)
    requires width >= 2
    ensures PadStart(NatToString(n), width, '0') == PadStart(NatToString(n / 10), width - 1, '0') + [DigitChar(n % 10)]
  {
    if n < 10 {
      PadDigit(n, width);
      assert n / 10 == 0 && n % 10 == n;
      assert NatToString(0) == "0";
    } else {
      PadSnoc(NatToString(n / 10), DigitChar(n % 10), width);
    }
  }

  /** A one-digit number needs no padding at width one. */
  lemma {:induction false} PadOne(n: nat)
    requires n < 10
    ensures PadStart(NatToString(n), 1, '0') == [DigitChar(n)]
  {
  }

  /** A number below 100 in exactly two digits; `TwoDigitsIsPadStart` ties it to `padStart(2, '0')`. */
  function TwoDigits(n: nat): (s: string)
    requires n < 100
    ensures |s| == 2 && AllDigits(s)
  {
    [DigitChar(n / 10), DigitChar(n % 10)]
  }

  /** A number below 10000 in exactly four digits, as `toISOString` writes a year. */
  function FourDigits(n: nat): (s: string)
    requires n < 10000
    ensures |s| == 4 && AllDigits(s)
  {
    var tens := n / 10;
    var hundreds := tens / 10;
    [DigitChar(hundreds / 10), DigitChar(hundreds % 10), DigitChar(tens % 10), DigitChar(n % 10)]
  }

  lemma {:induction false} TwoDigitsIsPadStart(n: nat)
    requires n < 100
    ensures TwoDigits(n) == PadStart(NatToString(n), 2, '0')
  {
    var tens := n / 10;
    PadWiden(n, 2, [DigitChar(tens)]) by { PadOne(tens); }
    assert [DigitChar(tens)] + [DigitChar(n % 10)] == TwoDigits(n);
  }

  /** One digit more: a padded rendering of `n / 10` one narrower, then the last digit of `n`. */
  lemma {:induction false} PadWiden(n: nat, width: nat, narrower: string)
    requires width >= 2 && PadStart(NatToString(n / 10), width - 1, '0') == narrower
    ensures PadStart(NatToString(n), width, '0') == narrower + [DigitChar(n % 10)]
  {
    PadStep(n, width);
  }

  lemma {:induction false} FourDigitsIsPadStart(n: nat)
    requires n < 10000
    ensures FourDigits(n) == PadStart(NatToString(n), 4, '0')
  {
    var tens := n / 10;
    var hundreds := tens / 10;
    var two := TwoDigits(hundreds);
    var three := two + [DigitChar(tens % 10)];
    assert FourDigits(n) == three + [DigitChar(n % 10)];
    PadWiden(tens, 3, two) by { TwoDigitsIsPadStart(hundreds); }
    PadWiden(n, 4, three);
  }

  /** Two digits read back as the number written. */
  lemma {:induction false} TwoDigitsValue(n: nat)
    requires n < 100
    ensures DigitsValue(TwoDigits(n)) == n && ParseNat(TwoDigits(n)) == Some(n)
  {
    var s := TwoDigits(n);
    DigitsValueSnoc([], s[0]);
    assert [] + [s[0]] == [s[0]];
    DigitsValueSnoc([s[0]], s[1]);
    assert [s[0]] + [s[1]] == s;
  }

  /** Four digits read back as the number written. */
  lemma {:induction false} FourDigitsValue(n: nat)
    requires n < 10000
    ensures DigitsValue(FourDigits(n)) == n && ParseNat(FourDigits(n)) == Some(n)
  {
    var s := FourDigits(n);
    var tens := n / 10;
    var hundreds := tens / 10;
    DigitsValueSnoc([], s[0]);
    assert [] + [s[0]] == s[..1];
    DigitsValueSnoc(s[..1], s[1]);
    assert s[..1] + [s[1]] == s[..2];
    DigitsValueSnoc(s[..2], s[2]);
    assert s[..2] + [s[2]] == s[..3];
    DigitsValueSnoc(s[..3], s[3]);
    assert s[..3] + [s[3]] == s;
    assert DigitsValue(s[..2]) == hundreds;
    assert DigitsValue(s[..3]) == tens;
  }

  /** `parts.join(sep)` / `sep.join(parts)`. */
  function Join(parts: seq<string>, sep: string): (r: string)
    ensures |parts| == 1 ==> r == parts[0]
    ensures |parts| == 0 ==> r == ""
  {
    if |parts| == 0 then "" else if |parts| == 1 then parts[0] else parts[0] + sep + Join(parts[1..], sep)
  }

  /** Index of the first `c` in `s`, when there is one. */
  function IndexOf(s: string, c: char): (r: Option<nat>)
    ensures r.None? <==> c !in s
    ensures r.Some? ==> r.value < |s| && s[r.value] == c && c !in s[..r.value]
  {
    if |s| == 0 then None
    else if s[0] == c then Some(0)
    else match IndexOf(s[1..], c)
      case None => None
      case Some(i) => assert s[1..][..i] == s[1..i + 1]; Some(i + 1)
  }

  /** A `c` with none before it is the first one. */
  lemma {:induction false} IndexOfFirst(s: string, c: char, i: nat)
    requires i < |s| && s[i] == c && c !in s[..i]
    ensures IndexOf(s, c) == Some(i)
  {
    var r := IndexOf(s, c);
    assert c in s by { assert s[i] == c; }
    forall j | 0 <= j < i ensures s[j] != c {
      assert s[..i][j] == s[j];
    }
    forall j | 0 <= j < r.value ensures s[j] != c {
      assert s[..r.value][j] == s[j];
    }
  }

  /** JavaScript `s.split(c)` for a one-character separator. */
  function SplitOn(s: string, c: char): (r: seq<string>)
    ensures |r| >= 1
    ensures c !in s ==> r == [s]
    decreases |s|
  {
    match IndexOf(s, c)
    case None => [s]
    case Some(i) => [s[..i]] + SplitOn(s[i + 1..], c)
  }

  /** Splitting at the first separator: the text before it, then the split of the rest. */
  lemma {:induction false} SplitOnCons(first: string, rest: string, c: char)
    requires c !in first
    ensures SplitOn(first + [c] + rest, c) == [first] + SplitOn(rest, c)
  {
    var s := first + [c] + rest;
    assert s[..|first|] == first && s[|first|] == c;
    IndexOfFirst(s, c, |first|);
    assert s[|first| + 1..] == rest;
  }

  /** Two texts without the separator, joined by it, split back into the two. */
  lemma {:induction false} SplitOnTwo(a: string, b: string, c: char)
    requires c !in a && c !in b
    ensures SplitOn(a + [c] + b, c) == [a, b]
  {
    SplitOnCons(a, b, c);
  }

  /** A string of digits holds no other character. */
  lemma {:induction false} DigitsExclude(s: string, c: char)
    requires AllDigits(s) && !IsDigit(c)
    ensures c !in s
  {
    forall i | 0 <= i < |s| ensures s[i] != c {
      assert IsDigit(s[i]);
    }
  }

  /** Splitting a joined list on a separator that no part contains gives the parts back. */
  lemma {:induction false} SplitOnJoin(parts: seq<string>, c: char)
    requires |parts| >= 1
    requires forall k :: 0 <= k < |parts| ==> c !in parts[k]
    ensures SplitOn(Join(parts, [c]), c) == parts
    decreases |parts|
  {
    if |parts| > 1 {
      var first, tail := parts[0], parts[1..];
      assert parts == [first] + tail;
      assert c !in first;
      assert forall k :: 0 <= k < |tail| ==> c !in tail[k] by {
        forall k | 0 <= k < |tail| ensures c !in tail[k] { assert tail[k] == parts[k + 1]; }
      }
      var rest := Join(tail, [c]);
      assert Join(parts, [c]) == first + [c] + rest;
      SplitOnCons(first, rest, c);
      SplitOnJoin(tail, c);
    }
  }

  /** JavaScript's `a < b` on strings: lexicographic, a proper prefix comes first. */
  function LexLess(a: string, b: string): bool
    decreases |a|
  {
    if |a| == 0 then |b| > 0
    else if |b| == 0 then false
    else if a[0] != b[0] then a[0] < b[0]
    else LexLess(a[1..], b[1..])
  }

  lemma {:induction false} LexIrreflexive(a: string)
    ensures !LexLess(a, a)
    decreases |a|
  {
    if |a| > 0 { LexIrreflexive(a[1..]); }
  }

  /** Distinct strings are ordered one way, and never both ways. */
  lemma {:induction false} LexTrichotomy(a: string, b: string)
    ensures !(LexLess(a, b) && LexLess(b, a))
    ensures a != b ==> LexLess(a, b) || LexLess(b, a)
    decreases |a|
  {
    if |a| > 0 && |b| > 0 && a[0] == b[0] {
      LexTrichotomy(a[1..], b[1..]);
      if a != b {
        assert a == [a[0]] + a[1..] && b == [b[0]] + b[1..];
      }
    }
  }

  /** With prefixes of equal length, the prefixes decide unless they are equal. */
  lemma {:induction false} LexAppend(a: string, b: string, c: string, d: string)
    requires |a| == |c|
    ensures LexLess(a + b, c + d) <==> LexLess(a, c) || (a == c && LexLess(b, d))
    decreases |a|
  {
    if |a| > 0 {
      assert (a + b)[0] == a[0] && (c + d)[0] == c[0];
      assert (a + b)[1..] == a[1..] + b && (c + d)[1..] == c[1..] + d;
      LexAppend(a[1..], b, c[1..], d);
      if a[0] == c[0] && a[1..] == c[1..] {
        assert a == c by { assert a == [a[0]] + a[1..] && c == [c[0]] + c[1..]; }
      }
    } else {
      assert a + b == b && c + d == d;
    }
  }

  /** On digit strings of equal length, lexicographic order is numeric order. */
  lemma {:induction false} LexDigits(a: string, b: string)
    requires |a| == |b| && AllDigits(a) && AllDigits(b)
    ensures LexLess(a, b) <==> DigitsValue(a) < DigitsValue(b)
    decreases |a|
  {
    if |a| > 0 {
      var n := |a| - 1;
      var a', b' := a[..n], b[..n];
      assert a == a' + [a[n]] && b == b' + [b[n]];
      LexAppend(a', [a[n]], b', [b[n]]);
      LexDigits(a', b');
      LexTrichotomy(a', b');
      LexDigits(b', a');
    }
  }

  /** ASCII upper-casing of one character; other characters are kept. */
  function UpperAscii(c: char): (r: char)
    ensures 'a' <= c <= 'z' ==> 'A' <= r <= 'Z' && r as int == c as int - 32
    ensures !('a' <= c <= 'z') ==> r == c
  {
    if 'a' <= c <= 'z' then (c as int - 32) as char else c
  }

  /** `p` occurs in `s` starting at index `i`. */
  predicate OccursAt(s: string, p: string, i: nat)
  {
    i + |p| <= |s| && s[i..i + |p|] == p
  }

  /** Leftmost occurrence of a non-empty `p` in `s` (Python `str.find`, `-1` as `None`). */
  function Find(s: string, p: string): (r: Option<nat>)
    requires |p| > 0
    ensures r.Some? ==> OccursAt(s, p, r.value)
    ensures r.Some? ==> forall j: nat :: j < r.value ==> !OccursAt(s, p, j)
    ensures r.None? ==> forall j: nat :: !OccursAt(s, p, j)
    decreases |s|
  {
    if |s| < |p| then None
    else if s[..|p|] == p then Some(0)
    else
      var r := Find(s[1..], p);
      assert forall j: nat :: j >= 1 ==> (OccursAt(s, p, j) <==> OccursAt(s[1..], p, j - 1)) by {
        forall j: nat | j >= 1 ensures OccursAt(s, p, j) <==> OccursAt(s[1..], p, j - 1) {
          if j + |p| <= |s| { assert s[j..j + |p|] == s[1..][j - 1..j - 1 + |p|]; }
        }
      }
      assert !OccursAt(s, p, 0);
      match r
      case None => None
      case Some(i) => Some(i + 1)
  }
}
