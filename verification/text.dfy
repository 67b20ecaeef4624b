/**
 * String helpers the notation and the reply parser rely on: the whitespace
 * set removed by trimming, trimming itself, splitting on and joining with a
 * separator, character search and decimal digits.
 */
module Text {

  /**
   * The characters a trim removes: the ECMAScript WhiteSpace set (tab,
   * vertical tab, form feed, space, no-break space, the byte-order mark and
   * the Unicode space separators) and the LineTerminator set (line feed,
   * carriage return, line and paragraph separators).
   */
  predicate IsSpace(c: char)
  {
    var n := c as int;
    || (0x09 <= n <= 0x0D) || n == 0x20 || n == 0xA0 || n == 0x1680
    || (0x2000 <= n <= 0x200A) || n == 0x2028 || n == 0x2029 || n == 0x202F
    || n == 0x205F || n == 0x3000 || n == 0xFEFF
  }

  predicate AllSpace(s: string)
  {
    forall i | 0 <= i < |s| :: IsSpace(s[i])
  }

  /** Drop the leading whitespace. */
  function TrimStart(s: string): (r: string)
    ensures |r| <= |s| && r == s[|s| - |r|..]
    ensures AllSpace(s[..|s| - |r|])
    ensures r == [] || !IsSpace(r[0])
  {
    if s == [] || !IsSpace(s[0]) then s
    else
      var rest := TrimStart(s[1..]);
      assert s[1..][..|s| - 1 - |rest|] == s[1..|s| - |rest|];
      rest
  }

  /** Drop the trailing whitespace. */
  function TrimEnd(s: string): (r: string)
    ensures |r| <= |s| && r == s[..|r|]
    ensures AllSpace(s[|r|..])
    ensures r == [] || !IsSpace(r[|r| - 1])
  {
    if s == [] || !IsSpace(s[|s| - 1]) then s
    else
      var rest := TrimEnd(s[..|s| - 1]);
      assert s[..|s| - 1][|rest|..] == s[|rest|..|s| - 1];
      rest
  }

  /** Drop the whitespace at both ends. */
  function Trim(s: string): (r: string)
    ensures exists i, j | 0 <= i <= j <= |s| :: r == s[i..j] && AllSpace(s[..i]) && AllSpace(s[j..])
    ensures r == [] || (!IsSpace(r[0]) && !IsSpace(r[|r| - 1]))
  {
    var a := TrimStart(s);
    var r := TrimEnd(a);
    var i := |s| - |a|;
    var j := i + |r|;
    assert r == s[i..j];
    assert s[j..] == a[|r|..];
    r
  }

  /** A trim leaves text that neither starts nor ends with whitespace unchanged. */
  lemma TrimNoop(s: string)
    requires s == [] || (!IsSpace(s[0]) && !IsSpace(s[|s| - 1]))
    ensures Trim(s) == s
  {
  }

  /** The parts of `s` between occurrences of `sep`, as a split on a one-character separator yields them. */
  function Split(s: string, sep: char): (r: seq<string>)
    ensures |r| >= 1
    ensures forall i | 0 <= i < |r| :: sep !in r[i]
    ensures |r| - 1 == multiset(s)[sep]
  {
    if s == [] then [[]]
    else
      var rest := Split(s[1..], sep);
      assert s == [s[0]] + s[1..];
      if s[0] == sep then [[]] + rest
      else [[s[0]] + rest[0]] + rest[1..]
  }

  /** The parts with `sep` between consecutive ones; no parts give the empty string. */
  function Join(parts: seq<string>, sep: string): string
  {
    if |parts| == 0 then []
    else if |parts| == 1 then parts[0]
    else parts[0] + sep + Join(parts[1..], sep)
  }

  lemma JoinCons(p: string, parts: seq<string>, sep: string)
    requires |parts| >= 1
    ensures Join([p] + parts, sep) == p + sep + Join(parts, sep)
  {
    assert ([p] + parts)[1..] == parts;
  }

  lemma JoinAppendHead(c: char, parts: seq<string>, sep: string)
    requires |parts| >= 1
    ensures Join([[c] + parts[0]] + parts[1..], sep) == [c] + Join(parts, sep)
  {
    if |parts| > 1 {
      JoinCons([c] + parts[0], parts[1..], sep);
      JoinCons(parts[0], parts[1..], sep);
      assert [parts[0]] + parts[1..] == parts;
    }
  }

  /** Joining the parts of a split with its separator restores the text. */
  lemma {:induction false} JoinSplit(s: string, sep: char)
    ensures Join(Split(s, sep), [sep]) == s
  {
    if s != [] {
      var rest := Split(s[1..], sep);
      JoinSplit(s[1..], sep);
      if s[0] == sep {
        JoinCons([], rest, [sep]);
      } else {
        JoinAppendHead(s[0], rest, [sep]);
      }
    }
  }

  /** Splitting a join of separator-free parts gives the parts back. */
  lemma {:induction false} SplitJoin(parts: seq<string>, sep: char)
    requires |parts| >= 1
    requires forall i | 0 <= i < |parts| :: sep !in parts[i]
    ensures Split(Join(parts, [sep]), sep) == parts
  {
    if |parts| == 1 {
      SplitFree(parts[0], sep);
    } else {
      SplitJoin(parts[1..], sep);
      SplitPrefix(parts[0], Join(parts[1..], [sep]), sep);
      assert [parts[0]] + parts[1..] == parts;
    }
  }

  /** A text without the separator splits into itself. */
  lemma {:induction false} SplitFree(s: string, sep: char)
    requires sep !in s
    ensures Split(s, sep) == [s]
  {
    if s != [] {
      SplitFree(s[1..], sep);
      assert [s[0]] + s[1..] == s;
    }
  }

  /** A separator-free head followed by the separator starts a new part. */
  lemma {:induction false} SplitPrefix(p: string, rest: string, sep: char)
    requires sep !in p
    ensures Split(p + [sep] + rest, sep) == [p] + Split(rest, sep)
  {
    if p == [] {
      assert ([sep] + rest)[1..] == rest;
    } else {
      assert (p + [sep] + rest)[1..] == p[1..] + [sep] + rest;
      SplitPrefix(p[1..], rest, sep);
      assert [p[0]] + p[1..] == p;
    }
  }

  /** The first part of a split is the text up to the first separator, or all of it. */
  lemma {:induction false} SplitHead(s: string, sep: char)
    ensures var k := |Split(s, sep)[0]|;
            k <= |s| && Split(s, sep)[0] == s[..k] && (k == |s| || s[k] == sep)
  {
    if s != [] && s[0] != sep {
      SplitHead(s[1..], sep);
    }
  }

  /** A join is at least as long as its first part. */
  lemma JoinHeadLength(parts: seq<string>, sep: string)
    requires |parts| >= 1
    ensures |parts[0]| <= |Join(parts, sep)|
  {
  }

  /**
   * The parts of a split from `start` on, joined again, are the text after
   * the separator that ends part `start - 1`.
   */
  lemma SplitSuffix(s: string, sep: char, start: nat)
    requires 1 <= start < |Split(s, sep)|
    ensures var lines := Split(s, sep);
            var p := |Join(lines[..start], [sep])| + 1;
            |lines[0]| < p <= |s| && s[p - 1] == sep && Join(lines[start..], [sep]) == s[p..]
  {
    var lines := Split(s, sep);
    JoinSplit(s, sep);
    assert lines == lines[..start] + lines[start..];
    JoinAppend(lines[..start], lines[start..], [sep]);
    JoinHeadLength(lines[..start], [sep]);
    var j1 := Join(lines[..start], [sep]);
    assert s == j1 + [sep] + Join(lines[start..], [sep]);
    assert s[|j1|] == sep;
    assert s[|j1| + 1..] == Join(lines[start..], [sep]);
  }

  /** Where the joined tail of a split starts in the text: just after a separator. */
  lemma SplitTail(s: string, sep: char, start: nat) returns (p: nat)
    requires 1 <= start < |Split(s, sep)|
    ensures 0 < p <= |s| && s[p - 1] == sep && Join(Split(s, sep)[start..], [sep]) == s[p..]
  {
    SplitSuffix(s, sep, start);
    p := |Join(Split(s, sep)[..start], [sep])| + 1;
  }

  predicate IsDigit(c: char)
  {
    '0' <= c <= '9'
  }

  /** The character of a decimal digit. */
  function DigitChar(d: int): (c: char)
    requires 0 <= d <= 9
    ensures IsDigit(c)
  {
    ('0' as int + d) as char
  }

  /** The value of a decimal digit character. */
  function DigitValue(c: char): (d: int)
    requires IsDigit(c)
    ensures 0 <= d <= 9 && DigitChar(d) == c
  {
    c as int - '0' as int
  }

  /** Decimal representation of a natural number, without leading zeros. */
  function NatToString(n: nat): (s: string)
    ensures |s| >= 1 && (forall i | 0 <= i < |s| :: IsDigit(s[i]))
    ensures |s| > 1 ==> s[0] != '0'
    ensures (s[0] == '0') == (n == 0)
  {
    if n < 10 then [DigitChar(n)]
    else NatToString(n / 10) + [DigitChar(n % 10)]
  }

  /** Value of a string of decimal digits. */
  function ParseNat(s: string): nat
    requires forall i | 0 <= i < |s| :: IsDigit(s[i])
  {
    if s == [] then 0 else 10 * ParseNat(s[..|s| - 1]) + DigitValue(s[|s| - 1])
  }

  /** Reading back a written number gives the number. */
  lemma {:induction false} NatToStringRoundTrip(n: nat)
    ensures ParseNat(NatToString(n)) == n
  {
    if n >= 10 {
      var s := NatToString(n);
      NatToStringRoundTrip(n / 10);
      assert s[..|s| - 1] == NatToString(n / 10);
    }
  }

  /** Joining two non-empty lists of parts is joining their joins. */
  lemma {:induction false} JoinAppend(a: seq<string>, b: seq<string>, sep: string)
    requires |a| >= 1 && |b| >= 1
    ensures Join(a + b, sep) == Join(a, sep) + sep + Join(b, sep)
  {
    if |a| == 1 {
      JoinCons(a[0], b, sep);
      assert [a[0]] + b == a + b;
    } else {
      JoinAppend(a[1..], b, sep);
      assert (a + b)[1..] == a[1..] + b;
      assert (a + b)[0] == a[0];
    }
  }

  /** Where part i starts when every part has `width` characters and separators have one. */
  function Offset(i: nat, width: nat): nat
  {
    if i == 0 then 0 else Offset(i - 1, width) + width + 1
  }

  lemma {:induction false} OffsetIsProduct(i: nat, width: nat)
    ensures Offset(i, width) == i * (width + 1)
  {
    if i > 0 {
      OffsetIsProduct(i - 1, width);
      assert (i - 1) * (width + 1) + (width + 1) == i * (width + 1);
    }
  }

  /** The length of a join of parts of one width. */
  lemma {:induction false} JoinWidthLength(parts: seq<string>, sep: char, width: nat)
    requires |parts| >= 1 && forall i | 0 <= i < |parts| :: |parts[i]| == width
    ensures |Join(parts, [sep])| == Offset(|parts|, width) - 1
  {
    if |parts| > 1 {
      JoinWidthLength(parts[1..], sep, width);
      OffsetShift(|parts| - 1, width);
    }
  }

  lemma {:induction false} OffsetShift(i: nat, width: nat)
    ensures Offset(i + 1, width) == Offset(i, width) + width + 1
    ensures Offset(i + 1, width) == width + 1 + Offset(i, width)
  {
  }

  lemma {:induction false} OffsetFromFirst(i: nat, width: nat)
    requires i >= 1
    ensures Offset(i, width) == width + 1 + Offset(i - 1, width)
  {
    if i > 1 {
      OffsetFromFirst(i - 1, width);
    }
  }

  /** Character `k` of part `i` (or, for k == width, the separator after it) in a join of parts of one width. */
  lemma {:induction false} JoinCharAt(parts: seq<string>, sep: char, width: nat, i: nat, k: nat)
    requires forall j | 0 <= j < |parts| :: |parts[j]| == width
    requires i < |parts| && k <= width && (k == width ==> i < |parts| - 1)
    ensures Offset(i, width) + k < |Join(parts, [sep])|
    ensures Join(parts, [sep])[Offset(i, width) + k] == if k < width then parts[i][k] else sep
    decreases i
  {
    JoinWidthLength(parts, sep, width);
    if |parts| > 1 {
      var rest := parts[1..];
      assert Join(parts, [sep]) == parts[0] + [sep] + Join(rest, [sep]);
      if i > 0 {
        JoinCharAt(rest, sep, width, i - 1, k);
        OffsetFromFirst(i, width);
        assert rest[i - 1] == parts[i];
      }
    }
  }
}
