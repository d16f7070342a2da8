/** JavaScript string semantics used by the booking subsystem, over Dafny
    strings, whose elements are Unicode scalar values rather than
    JavaScript's UTF-16 code units (the two agree on the ASCII text the
    subsystem compares and slices): lexicographic comparison (`<`, `<=` on
    strings), `slice`, `padStart`,
    `Number.prototype.toString` for naturals, `replace` with a global or a
    first-match pattern, `Array.prototype.join` and splitting on CRLF. */
module Text {

  import opened Nullable

  /** JavaScript `a < b` on strings: lexicographic on the characters, where
      a proper prefix sorts first. (Dafny's own `<` on sequences is the
      proper-prefix relation, which is a different thing.) */
  predicate LexLess(a: string, b: string)
    decreases |a|
  {
    if |a| == 0 then |b| > 0
    else if |b| == 0 then false
    else if a[0] != b[0] then a[0] < b[0]
    else LexLess(a[1..], b[1..])
  }

  /** JavaScript `a <= b` on strings. */
  predicate LexLe(a: string, b: string) {
    LexLess(a, b) || a == b
  }

  lemma {:induction false} LexLessIrreflexive(a: string)
    ensures !LexLess(a, a)
    decreases |a|
  {
    if |a| > 0 {
      assert a[1..] == a[1..];
      LexLessIrreflexive(a[1..]);
    }
  }

  lemma {:induction false} LexLessTransitive(a: string, b: string, c: string)
    requires LexLess(a, b) && LexLess(b, c)
    ensures LexLess(a, c)
    decreases |a|
  {
    if |a| > 0 && a[0] == b[0] && b[0] == c[0] {
      LexLessTransitive(a[1..], b[1..], c[1..]);
    }
  }

  /** Comparing two strings that share a prefix of equal length reduces to
      comparing the prefixes first and the rests second. */
  lemma {:induction false} LexLessAppend(x: string, y: string, x': string, y': string)
    requires |x| == |x'|
    ensures LexLess(x + y, x' + y') <==> LexLess(x, x') || (x == x' && LexLess(y, y'))
    decreases |x|
  {
    if |x| == 0 {
      assert x + y == y;
      assert x' + y' == y';
    } else {
      assert (x + y)[0] == x[0];
      assert (x' + y')[0] == x'[0];
      assert (x + y)[1..] == x[1..] + y;
      assert (x' + y')[1..] == x'[1..] + y';
      LexLessAppend(x[1..], y, x'[1..], y');
      if x[0] == x'[0] {
        assert x == x' <==> x[1..] == x'[1..] by {
          if x[1..] == x'[1..] {
            assert x == [x[0]] + x[1..];
            assert x' == [x'[0]] + x'[1..];
          }
        }
      } else {
        assert x != x';
      }
    }
  }

  /** A common prefix does not change the order. */
  lemma LexLessSamePrefix(p: string, y: string, y': string)
    ensures LexLess(p + y, p + y') <==> LexLess(y, y')
  {
    LexLessAppend(p, y, p, y');
    LexLessIrreflexive(p);
  }

  /** On single characters the order is the code-unit order. */
  lemma LexLessChar(c: char, d: char)
    ensures LexLess([c], [d]) <==> c < d
  {
    assert [c][1..] == [];
    assert [d][1..] == [];
  }

  /** Two strings of the same length that are not equal are ordered one way
      or the other. */
  lemma {:induction false} LexLessTotal(a: string, b: string)
    requires |a| == |b|
    ensures a == b || LexLess(a, b) || LexLess(b, a)
    ensures !(LexLess(a, b) && LexLess(b, a))
    decreases |a|
  {
    if |a| > 0 && a[0] == b[0] {
      LexLessTotal(a[1..], b[1..]);
      if a[1..] == b[1..] {
        assert a == [a[0]] + a[1..];
        assert b == [b[0]] + b[1..];
      }
    }
  }

  predicate IsDigit(c: char) {
    '0' <= c <= '9'
  }

  predicate AllDigits(s: string) {
    forall i :: 0 <= i < |s| ==> IsDigit(s[i])
  }

  /** The character of a decimal digit. */
  function Digit(n: nat): (c: char)
    requires n < 10
    ensures IsDigit(c)
    ensures c as int - '0' as int == n
  {
    (48 + n) as char
  }

  /** The value of a decimal digit character. */
  function DigitValue(c: char): (n: nat)
    requires IsDigit(c)
    ensures n < 10
    ensures Digit(n) == c
  {
    c as int - '0' as int
  }

  /** `Number(s)` for a non-empty string of decimal digits (leading zeros
      allowed, as in "09"). */
  function DecimalValue(s: string): (n: nat)
    requires AllDigits(s)
    decreases |s|
  {
    if |s| == 0 then 0
    else DecimalValue(s[..|s| - 1]) * 10 + DigitValue(s[|s| - 1])
  }

  /** `n.toString()` for a natural number: decimal, no leading zeros. */
  function NatToString(n: nat): (s: string)
    ensures |s| >= 1
    ensures n < 10 <==> |s| == 1
    decreases n
  {
    if n < 10 then [Digit(n)] else NatToString(n / 10) + [Digit(n % 10)]
  }

  /** Reading back what `toString` wrote gives the number. */
  lemma {:induction false} NatToStringValue(n: nat)
    ensures AllDigits(NatToString(n))
    ensures DecimalValue(NatToString(n)) == n
    decreases n
  {
    if n >= 10 {
      NatToStringValue(n / 10);
      var s := NatToString(n);
      assert s[..|s| - 1] == NatToString(n / 10);
    }
  }

  /** A string of `n` copies of `c`. */
  function Repeat(c: char, n: nat): (s: string)
    ensures |s| == n
    ensures forall i :: 0 <= i < n ==> s[i] == c
  {
    seq(n, _ => c)
  }

  /** `s.padStart(width, c)` for a one-character pad string. */
  function PadStart(s: string, width: nat, c: char): (r: string)
    ensures |r| == if |s| >= width then |s| else width
    ensures r[|r| - |s|..] == s
    ensures forall i :: 0 <= i < |r| - |s| ==> r[i] == c
  {
    if |s| >= width then s else Repeat(c, width - |s|) + s
  }

  /** Two-digit zero padding of a number below 100 is the tens digit
      followed by the units digit. */
  lemma Pad2Digits(n: nat)
    requires n < 100
    ensures PadStart(NatToString(n), 2, '0') == [Digit(n / 10), Digit(n % 10)]
  {
    if n >= 10 {
      assert NatToString(n / 10) == [Digit(n / 10)];
    }
  }

  /** Four-digit zero padding of a number below 10000. */
  lemma Pad4Digits(n: nat)
    requires n < 10000
    ensures PadStart(NatToString(n), 4, '0') ==
      [Digit(n / 1000), Digit(n / 100 % 10), Digit(n / 10 % 10), Digit(n % 10)]
  {
    DivTen(n);
    if n < 10 {
      assert PadStart(NatToString(n), 4, '0') == Repeat('0', 3) + [Digit(n)];
    } else if n < 100 {
      NatToStringTwo(n);
      assert PadStart(NatToString(n), 4, '0') == Repeat('0', 2) + NatToString(n);
    } else if n < 1000 {
      NatToStringThree(n);
      assert PadStart(NatToString(n), 4, '0') == Repeat('0', 1) + NatToString(n);
    } else {
      NatToStringFour(n);
    }
  }

  /** Dividing by ten twice or three times. */
  lemma DivTen(n: nat)
    ensures n / 10 / 10 == n / 100
    ensures n / 100 / 10 == n / 1000
  {
  }

  lemma NatToStringTwo(n: nat)
    requires 10 <= n < 100
    ensures NatToString(n) == [Digit(n / 10), Digit(n % 10)]
  {
    assert NatToString(n / 10) == [Digit(n / 10)];
  }

  lemma NatToStringThree(n: nat)
    requires 100 <= n < 1000
    ensures NatToString(n) == [Digit(n / 100), Digit(n / 10 % 10), Digit(n % 10)]
  {
    DivTen(n);
    NatToStringTwo(n / 10);
  }

  lemma NatToStringFour(n: nat)
    requires 1000 <= n < 10000
    ensures NatToString(n) == [Digit(n / 1000), Digit(n / 100 % 10), Digit(n / 10 % 10), Digit(n % 10)]
  {
    DivTen(n);
    DivTen(n / 10);
    NatToStringThree(n / 10);
  }


  /** The index JavaScript's `slice` makes of a possibly negative or
      out-of-range bound. */
  function SliceIndex(len: nat, k: int): (i: nat)
    ensures i <= len
  {
    if k < 0 then (if len + k < 0 then 0 else len + k)
    else if k > len then len
    else k
  }

  /** JavaScript `s.slice(start, end)`: negative bounds count from the end,
      bounds are clamped to the string, and a reversed range is empty. */
  function Slice(s: string, start: int, end: int): (r: string)
    ensures start >= 0 && end >= 0 && start <= end <= |s| ==> r == s[start..end]
    ensures 0 < |s| && start == 0 && end == -1 ==> r == s[..|s| - 1]
    ensures |r| <= |s|
  {
    var i := SliceIndex(|s|, start);
    var j := SliceIndex(|s|, end);
    if i >= j then "" else s[i..j]
  }

  /** `s.replace(/c/g, "")`: every occurrence of `c` removed. */
  function RemoveAll(s: string, c: char): (r: string)
    ensures c !in r
    ensures c !in s ==> r == s
    ensures |r| <= |s|
  {
    if |s| == 0 then ""
    else (if s[0] == c then "" else [s[0]]) + RemoveAll(s[1..], c)
  }

  lemma {:induction false} RemoveAllAppend(a: string, b: string, c: char)
    ensures RemoveAll(a + b, c) == RemoveAll(a, c) + RemoveAll(b, c)
    decreases |a|
  {
    if |a| == 0 {
      assert a + b == b;
    } else {
      AppendHead(a, b);
      RemoveAllAppend(a[1..], b, c);
      var head: string := if a[0] == c then "" else [a[0]];
      assert RemoveAll(a, c) == head + RemoveAll(a[1..], c);
      assert RemoveAll(a + b, c) == head + RemoveAll(a[1..] + b, c);
      AppendAssoc(head, RemoveAll(a[1..], c), RemoveAll(b, c));
    }
  }

  /** Removing characters adds none: a character absent from `s` is absent
      from the result. */
  lemma {:induction false} RemoveAllKeepsOut(s: string, c: char, d: char)
    requires d !in s
    ensures d !in RemoveAll(s, c)
    decreases |s|
  {
    if |s| > 0 {
      RemoveAllKeepsOut(s[1..], c, d);
    }
  }

  /** Removing a separator `c` that stands between two `c`-free parts
      joins the parts. */
  lemma RemoveAllSeparator(a: string, b: string, c: char)
    requires c !in a && c !in b
    ensures RemoveAll(a + [c] + b, c) == a + b
  {
    var sep: string := [c];
    assert RemoveAll(sep, c) == [] by {
      assert sep[1..] == [];
    }
    RemoveAllAppend(a, sep, c);
    assert RemoveAll(a + sep, c) == a by {
      assert a + [] == a;
    }
    RemoveAllAppend(a + sep, b, c);
  }

  lemma AppendAssoc(a: string, b: string, c: string)
    ensures a + (b + c) == a + b + c
  {
  }

  /** Appending text free of `c` keeps it as it is. */
  lemma RemoveAllKeepsLast(x: string, tail: string, c: char)
    requires c !in tail
    ensures RemoveAll(x + tail, c) == RemoveAll(x, c) + tail
  {
    RemoveAllAppend(x, tail, c);
  }

  /** Appending the removed character itself adds nothing. */
  lemma RemoveAllDropsLast(x: string, sep: string, c: char)
    requires sep == [c]
    ensures RemoveAll(x + sep, c) == RemoveAll(x, c)
  {
    RemoveAllAppend(x, sep, c);
    assert RemoveAll(sep, c) == [] by {
      assert sep[1..] == [];
    }
    assert RemoveAll(x, c) + [] == RemoveAll(x, c);
  }

  /** The same for two separators. */
  lemma RemoveAllSeparators(a: string, b: string, d: string, c: char)
    requires c !in a && c !in b && c !in d
    ensures RemoveAll(a + [c] + b + [c] + d, c) == a + b + d
  {
    var sep: string := [c];
    var left := a + sep + b;
    assert RemoveAll(left, c) == a + b by {
      RemoveAllSeparator(a, b, c);
    }
    assert RemoveAll(sep + d, c) == d by {
      RemoveAllSeparator([], d, c);
      assert [] + sep + d == sep + d;
    }
    assert a + sep + b + sep + d == left + (sep + d);
    RemoveAllAppend(left, sep + d, c);
  }

  /** `s.replace("c", "")` with a one-character string pattern: only the
      first occurrence is removed. */
  function RemoveFirst(s: string, c: char): (r: string)
    ensures c in s ==> |r| == |s| - 1
    ensures c !in s ==> r == s
  {
    if |s| == 0 then ""
    else if s[0] == c then s[1..]
    else [s[0]] + RemoveFirst(s[1..], c)
  }

  lemma {:induction false} RemoveFirstKeepsOut(s: string, c: char, d: char)
    requires d !in s
    ensures d !in RemoveFirst(s, c)
    decreases |s|
  {
    if |s| > 0 && s[0] != c {
      RemoveFirstKeepsOut(s[1..], c, d);
    }
  }

  /** Only the first `c` goes: everything after it is kept as it is. */
  lemma {:induction false} RemoveFirstSplits(a: string, b: string, c: char)
    requires c !in a
    ensures RemoveFirst(a + [c] + b, c) == a + b
    decreases |a|
  {
    if |a| == 0 {
      assert a + [c] + b == [c] + b;
      assert ([c] + b)[1..] == b;
    } else {
      SplitHead(a, b, c);
      RemoveFirstSplits(a[1..], b, c);
    }
  }

  /** The first character and the rest of `a + b` when `a` is not empty. */
  lemma AppendHead(a: string, b: string)
    requires |a| > 0
    ensures (a + b)[0] == a[0]
    ensures (a + b)[1..] == a[1..] + b
  {
  }

  /** The first character and the rest of `a + [c] + b` when `a` is not
      empty. */
  lemma SplitHead(a: string, b: string, c: char)
    requires |a| > 0
    ensures (a + [c] + b)[0] == a[0]
    ensures (a + [c] + b)[1..] == a[1..] + [c] + b
    ensures a + b == [a[0]] + (a[1..] + b)
  {
  }

  /** `s.split(c)[0]`: the text before the first occurrence of `c`, or all of
      `s` when there is none. */
  function Before(s: string, c: char): (r: string)
    ensures r <= s
    ensures c !in r
    ensures c !in s ==> r == s
    ensures c in s ==> |r| < |s| && s[|r|] == c
  {
    if |s| == 0 then ""
    else if s[0] == c then ""
    else [s[0]] + Before(s[1..], c)
  }

  /** The text before the first `c` of `a + [c] + b` is `a` when `a` has no `c`. */
  lemma {:induction false} BeforeSplits(a: string, b: string, c: char)
    requires c !in a
    ensures Before(a + [c] + b, c) == a
    decreases |a|
  {
    if |a| > 0 {
      SplitHead(a, b, c);
      BeforeSplits(a[1..], b, c);
      assert a == [a[0]] + a[1..];
    }
  }

  /** Text after the first `c` does not change what comes before it. */
  lemma {:induction false} BeforeIgnoresTail(x: string, y: string, c: char)
    requires c in x
    ensures Before(x + y, c) == Before(x, c)
    decreases |x|
  {
    assert (x + y)[0] == x[0];
    if x[0] != c {
      assert (x + y)[1..] == x[1..] + y;
      BeforeIgnoresTail(x[1..], y, c);
    }
  }

  /** Cutting at a final `c` gives back what precedes it. */
  lemma BeforeLast(x: string, sep: string, c: char)
    requires c !in x && sep == [c]
    ensures Before(x + sep, c) == x
  {
    BeforeSplits(x, [], c);
    assert x + [c] + [] == x + sep;
  }

  const CRLF: string := "\r\n"

  /** `lines.join(sep)`. */
  function Join(lines: seq<string>, sep: string): string
  {
    if |lines| == 0 then ""
    else if |lines| == 1 then lines[0]
    else lines[0] + sep + Join(lines[1..], sep)
  }

  /** A joined text starts with its first line and ends with its last. */
  lemma {:induction false} JoinEnds(lines: seq<string>, sep: string)
    requires |lines| >= 1
    ensures lines[0] <= Join(lines, sep)
    ensures |lines[|lines| - 1]| <= |Join(lines, sep)|
    ensures Join(lines, sep)[|Join(lines, sep)| - |lines[|lines| - 1]|..] == lines[|lines| - 1]
    decreases |lines|
  {
    if |lines| > 1 {
      JoinEnds(lines[1..], sep);
      var rest := Join(lines[1..], sep);
      var s := lines[0] + sep + rest;
      assert s[|s| - |rest|..] == rest;
      assert lines[1..][|lines| - 2] == lines[|lines| - 1];
      assert s[|s| - |lines[|lines| - 1]|..] == rest[|rest| - |lines[|lines| - 1]|..];
    }
  }

  /** The first position of a CR LF pair in `s`. */
  function FindCrlf(s: string): (r: Option<nat>)
    ensures r.Some? ==> r.value + 1 < |s| && s[r.value] == '\r' && s[r.value + 1] == '\n'
    ensures '\r' !in s ==> r.None?
  {
    if |s| < 2 then None
    else if s[0] == '\r' && s[1] == '\n' then Some(0)
    else match FindCrlf(s[1..])
      case None => None
      case Some(i) => Some(i + 1)
  }

  /** The lines of a CRLF-separated document: the inverse of joining with
      CRLF, as a reader of the document would do it. */
  function SplitCrlf(s: string): (lines: seq<string>)
    ensures |lines| >= 1
    decreases |s|
  {
    match FindCrlf(s)
    case None => [s]
    case Some(i) => [s[..i]] + SplitCrlf(s[i + 2..])
  }

  /** Joining lines that hold no CR with CRLF and splitting the result on
      CRLF gives the lines back. */
  lemma {:induction false} SplitJoinCrlf(lines: seq<string>)
    requires |lines| >= 1
    requires forall i :: 0 <= i < |lines| ==> '\r' !in lines[i]
    ensures SplitCrlf(Join(lines, CRLF)) == lines
    decreases |lines|
  {
    if |lines| > 1 {
      var rest := Join(lines[1..], CRLF);
      FindCrlfAfter(lines[0], rest);
      CrlfParts(lines[0], rest);
      SplitJoinCrlf(lines[1..]);
      assert lines == [lines[0]] + lines[1..];
    }
  }

  /** Where the two sides of a CRLF sit. */
  lemma CrlfParts(a: string, b: string)
    ensures (a + CRLF + b)[..|a|] == a
    ensures (a + CRLF + b)[|a| + 2..] == b
  {
  }

  /** The first CR LF of `a + CRLF + b` is the one after `a` when `a` has
      no CR. */
  lemma {:induction false} FindCrlfAfter(a: string, b: string)
    requires '\r' !in a
    ensures FindCrlf(a + CRLF + b) == Some(|a|)
    decreases |a|
  {
    var s := a + CRLF + b;
    if |a| > 0 {
      assert s[1..] == a[1..] + CRLF + b;
      FindCrlfAfter(a[1..], b);
    } else {
      assert s[0] == '\r' && s[1] == '\n';
    }
  }
}
