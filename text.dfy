/**
 * The few Python string operations the pipeline relies on: `in` (substring
 * containment), `str.split` on one character, `str.join`, `startswith`,
 * `endswith`, `str(n)` for a natural number, and the code-point ordering that
 * `max` uses on strings.
 */
module Text {

  predicate StartsWith(s: string, p: string) {
    |p| <= |s| && s[..|p|] == p
  }

  predicate EndsWith(s: string, suffix: string) {
    |suffix| <= |s| && s[|s| - |suffix|..] == suffix
  }

  /** Python's `t in s` for two strings. */
  predicate Contains(s: string, t: string)
    decreases |s|
  {
    StartsWith(s, t) || (|s| > 0 && Contains(s[1..], t))
  }

  lemma {:induction false} ContainsAt(s: string, t: string, i: nat)
    requires i + |t| <= |s| && s[i..i + |t|] == t
    ensures Contains(s, t)
    decreases i
  {
    if i == 0 {
      assert s[..|t|] == t;
    } else {
      assert s[1..][i - 1..i - 1 + |t|] == s[i..i + |t|];
      ContainsAt(s[1..], t, i - 1);
    }
  }

  lemma {:induction false} ContainsWitness(s: string, t: string) returns (i: nat)
    requires Contains(s, t)
    ensures i + |t| <= |s| && s[i..i + |t|] == t
    decreases |s|
  {
    if StartsWith(s, t) {
      i := 0;
    } else {
      var j := ContainsWitness(s[1..], t);
      i := j + 1;
      assert s[i..i + |t|] == s[1..][j..j + |t|];
    }
  }

  /** A string contains each of its own slices. */
  lemma ContainsSlice(s: string, i: nat, j: nat)
    requires i <= j <= |s|
    ensures Contains(s, s[i..j])
  {
    ContainsAt(s, s[i..j], i);
  }

  /** Python's `s.split(c)` for a one-character separator: never empty. */
  function Split(s: string, c: char): (parts: seq<string>)
    ensures |parts| >= 1
    decreases |s|
  {
    if |s| == 0 then [""]
    else
      var rest := Split(s[1..], c);
      if s[0] == c then [""] + rest else [[s[0]] + rest[0]] + rest[1..]
  }

  /** Python's `sep.join(parts)`. */
  function Join(parts: seq<string>, sep: string): string
    decreases |parts|
  {
    if |parts| == 0 then ""
    else if |parts| == 1 then parts[0]
    else parts[0] + sep + Join(parts[1..], sep)
  }

  /** Splitting and joining back with the same separator gives the string back. */
  lemma {:induction false} SplitJoin(s: string, c: char)
    ensures Join(Split(s, c), [c]) == s
    ensures forall k :: 0 <= k < |Split(s, c)| ==> c !in Split(s, c)[k]
    decreases |s|
  {
    if |s| > 0 {
      var rest := Split(s[1..], c);
      SplitJoin(s[1..], c);
      if s[0] == c {
        assert Split(s, c) == [""] + rest;
        if |rest| == 1 {
          assert Join(Split(s, c), [c]) == "" + [c] + rest[0];
        } else {
          assert Join(Split(s, c), [c]) == "" + [c] + Join(rest, [c]);
        }
        assert s == [s[0]] + s[1..];
      } else {
        var parts := Split(s, c);
        assert parts == [[s[0]] + rest[0]] + rest[1..];
        if |rest| == 1 {
          assert Join(parts, [c]) == [s[0]] + rest[0];
        } else {
          assert Join(rest, [c]) == rest[0] + [c] + Join(rest[1..], [c]);
          assert parts[1..] == rest[1..];
          assert Join(parts, [c]) == ([s[0]] + rest[0]) + [c] + Join(rest[1..], [c]);
        }
        assert s == [s[0]] + s[1..];
        forall k | 0 <= k < |parts| ensures c !in parts[k] {
          if k == 0 {
            assert c !in rest[0];
          } else {
            assert parts[k] == rest[k];
          }
        }
      }
    }
  }

  /** A string without the separator splits into itself alone. */
  lemma {:induction false} SplitNoSeparator(s: string, c: char)
    requires c !in s
    ensures Split(s, c) == [s]
    decreases |s|
  {
    if |s| > 0 {
      SplitNoSeparator(s[1..], c);
      assert [s[0]] + s[1..] == s;
    }
  }

  /** The first separator ends the first part: `(a + c + b).split(c) == [a] + b.split(c)`. */
  lemma {:induction false} SplitAtFirst(a: string, c: char, b: string)
    requires c !in a
    ensures Split(a + [c] + b, c) == [a] + Split(b, c)
    decreases |a|
  {
    var s := a + [c] + b;
    if |a| == 0 {
      assert s[1..] == b;
    } else {
      assert s[1..] == a[1..] + [c] + b;
      SplitAtFirst(a[1..], c, b);
      assert [a[0]] + a[1..] == a;
    }
  }

  /** Python's `s.split(c)[0]`: the text before the first separator. */
  function FirstSegment(s: string, c: char): string {
    Split(s, c)[0]
  }

  /** The first segment is a prefix without the separator, ended by the separator or by the end of the string. */
  lemma {:induction false} FirstSegmentShape(s: string, c: char)
    ensures StartsWith(s, FirstSegment(s, c))
    ensures c !in FirstSegment(s, c)
    ensures |FirstSegment(s, c)| < |s| ==> s[|FirstSegment(s, c)|] == c
    decreases |s|
  {
    if |s| > 0 && s[0] != c {
      FirstSegmentShape(s[1..], c);
      assert FirstSegment(s, c) == [s[0]] + FirstSegment(s[1..], c);
    }
  }

  /** Python's `s.split(c)[-1]`: the text after the last separator. */
  function LastSegment(s: string, c: char): string {
    var parts := Split(s, c);
    parts[|parts| - 1]
  }

  lemma {:induction false} LastSegmentOf(d: string, c: char, b: string)
    requires c !in b
    ensures LastSegment(d + [c] + b, c) == b
    decreases |d|
  {
    if c !in d {
      SplitAtFirst(d, c, b);
      SplitNoSeparator(b, c);
    } else {
      var s := d + [c] + b;
      assert s[1..] == d[1..] + [c] + b;
      LastSegmentOf(d[1..], c, b);
      if d[0] != c {
        assert c in d[1..];
        SplitSeveral(s[1..], c);
      }
    }
  }

  /** A string holding the separator splits into at least two parts. */
  lemma {:induction false} SplitSeveral(s: string, c: char)
    requires c in s
    ensures |Split(s, c)| >= 2
    decreases |s|
  {
    if s[0] != c {
      SplitSeveral(s[1..], c);
    }
  }

  /** The last segment never contains the separator, and the string ends with it. */
  lemma LastSegmentShape(s: string, c: char)
    ensures c !in LastSegment(s, c)
    ensures EndsWith(s, LastSegment(s, c))
  {
    var parts := Split(s, c);
    SplitJoin(s, c);
    var last := parts[|parts| - 1];
    assert LastSegment(s, c) == last;
    assert c !in last;
    JoinEndsWithLast(parts, [c]);
    assert Join(parts, [c]) == s;
  }

  lemma {:induction false} JoinEndsWithLast(parts: seq<string>, sep: string)
    requires |parts| >= 1
    ensures EndsWith(Join(parts, sep), parts[|parts| - 1])
    decreases |parts|
  {
    if |parts| > 1 {
      JoinEndsWithLast(parts[1..], sep);
      var j := Join(parts[1..], sep);
      assert Join(parts, sep) == (parts[0] + sep) + j;
    }
  }

  /** Python's `str(n)` for a natural number. */
  function NatToString(n: nat): (r: string)
    ensures |r| >= 1
    ensures forall k :: 0 <= k < |r| ==> '0' <= r[k] <= '9'
    decreases n
  {
    var d := ['0' + (n % 10) as char];
    if n < 10 then d else NatToString(n / 10) + d
  }

  /** The decimal form of a number has one digit per power of ten below it. */
  lemma {:induction false} NatToStringLength(n: nat, width: nat)
    requires width >= 1
    ensures |NatToString(n)| <= width <==> n < Pow10(width)
    decreases n
  {
    if n >= 10 {
      if width == 1 {
        NatToStringLength(n / 10, 1);
      } else {
        NatToStringLength(n / 10, width - 1);
      }
    }
  }

  /** Different numbers have different decimal forms. */
  lemma {:induction false} NatToStringInjective(n: nat, m: nat)
    requires NatToString(n) == NatToString(m)
    ensures n == m
    decreases n
  {
    var sn, sm := NatToString(n), NatToString(m);
    assert sn[|sn| - 1] == '0' + (n % 10) as char;
    assert sm[|sm| - 1] == '0' + (m % 10) as char;
    if n >= 10 && m >= 10 {
      assert NatToString(n / 10) == sn[..|sn| - 1] == sm[..|sm| - 1] == NatToString(m / 10);
      NatToStringInjective(n / 10, m / 10);
    }
  }

  function Pow10(k: nat): (r: nat)
    ensures r >= 1
  {
    if k == 0 then 1 else 10 * Pow10(k - 1)
  }

  /** Python's `a <= b` on strings: code-point lexicographic order. */
  predicate LexLe(a: string, b: string)
    decreases |a|
  {
    |a| == 0 || (|b| > 0 && (a[0] < b[0] || (a[0] == b[0] && LexLe(a[1..], b[1..]))))
  }

  lemma {:induction false} LexLeTotal(a: string, b: string)
    ensures LexLe(a, b) || LexLe(b, a)
    decreases |a|
  {
    if |a| > 0 && |b| > 0 && a[0] == b[0] {
      LexLeTotal(a[1..], b[1..]);
    }
  }

  lemma {:induction false} LexLeTrans(a: string, b: string, c: string)
    requires LexLe(a, b) && LexLe(b, c)
    ensures LexLe(a, c)
    decreases |a|
  {
    if |a| > 0 && a[0] == b[0] && b[0] == c[0] {
      LexLeTrans(a[1..], b[1..], c[1..]);
    }
  }

  lemma {:induction false} LexLeAntisymmetric(a: string, b: string)
    requires LexLe(a, b) && LexLe(b, a)
    ensures a == b
    decreases |a|
  {
    if |a| > 0 {
      LexLeAntisymmetric(a[1..], b[1..]);
      assert a == [a[0]] + a[1..] && b == [b[0]] + b[1..];
    }
  }

  /** Python's `max(xs)` on a non-empty list of strings. */
  function MaxString(xs: seq<string>): (m: string)
    requires |xs| > 0
    ensures m in xs
    ensures forall x :: x in xs ==> LexLe(x, m)
    decreases |xs|
  {
    if |xs| == 1 then
      assert forall x :: x in xs ==> x == xs[0];
      LexLeReflexive(xs[0]);
      xs[0]
    else
      var rest := MaxString(xs[1..]);
      LexLeTotal(xs[0], rest);
      LexLeReflexive(xs[0]);
      var m := if LexLe(rest, xs[0]) then xs[0] else rest;
      assert forall x :: x in xs ==> x == xs[0] || x in xs[1..];
      forall x | x in xs ensures LexLe(x, m) {
        if x in xs[1..] && m == xs[0] {
          LexLeTrans(x, rest, xs[0]);
        }
      }
      m
  }

  lemma {:induction false} LexLeReflexive(a: string)
    ensures LexLe(a, a)
    decreases |a|
  {
    if |a| > 0 {
      LexLeReflexive(a[1..]);
    }
  }

  /** `max` depends only on which strings are in the list, not on their order or repetition. */
  lemma MaxStringBySet(xs: seq<string>, ys: seq<string>)
    requires |xs| > 0 && |ys| > 0
    requires forall x :: x in xs <==> x in ys
    ensures MaxString(xs) == MaxString(ys)
  {
    var a, b := MaxString(xs), MaxString(ys);
    LexLeAntisymmetric(a, b);
  }
  /** Two strings that agree up to position `i` and differ there are ordered by that character. */
  lemma {:induction false} LexLeAt(a: string, b: string, i: nat)
    requires i < |a| && i < |b| && a[..i] == b[..i] && a[i] < b[i]
    ensures LexLe(a, b) && !LexLe(b, a)
    decreases i
  {
    if i > 0 {
      assert a[0] == a[..i][0] == b[..i][0] == b[0];
      assert a[1..][..i - 1] == a[..i][1..] == b[..i][1..] == b[1..][..i - 1];
      LexLeAt(a[1..], b[1..], i - 1);
    }
  }

  /** A one-character string occurs in `s` only if that character does. */
  lemma {:induction false} NotContainsChar(s: string, t: string)
    requires |t| == 1 && t[0] !in s
    ensures !Contains(s, t)
    decreases |s|
  {
    if |s| > 0 {
      assert s[0] != t[0];
      NotContainsChar(s[1..], t);
    }
  }
}
