/**
 * Text helpers used by the filter-graph builder: the decimal rendering that
 * `format!("{}", i)` produces for an unsigned index, and the splitting and
 * label-extraction functions used to read a generated graph back.
 */
module Text {

  predicate IsDigit(c: char) {
    '0' <= c <= '9'
  }

  predicate AllDigits(s: string) {
    forall i :: 0 <= i < |s| ==> IsDigit(s[i])
  }

  function DigitChar(d: nat): (c: char)
    requires d < 10
    ensures IsDigit(c) && c as int - '0' as int == d
  {
    ('0' as int + d) as char
  }

  /** Decimal rendering of `n`, without sign and without leading zeros. */
  function NatToString(n: nat): (s: string)
    ensures |s| >= 1 && AllDigits(s)
    ensures s[0] == '0' ==> n == 0
    decreases n
  {
    if n < 10 then [DigitChar(n)] else NatToString(n / 10) + [DigitChar(n % 10)]
  }

  /** The value of a string of decimal digits (the inverse of NatToString). */
  function ParseDecimal(s: string): nat
    requires AllDigits(s)
  {
    if |s| == 0 then 0
    else ParseDecimal(s[..|s| - 1]) * 10 + (s[|s| - 1] as int - '0' as int)
  }

  lemma {:induction false} ParseNatToString(n: nat)
    ensures ParseDecimal(NatToString(n)) == n
    decreases n
  {
    var s := NatToString(n);
    if n < 10 {
      assert s[..|s| - 1] == [];
    } else {
      assert s[..|s| - 1] == NatToString(n / 10);
      ParseNatToString(n / 10);
    }
  }

  /** Distinct indices render to distinct decimal strings. */
  lemma NatToStringInjective(m: nat, n: nat)
    ensures NatToString(m) == NatToString(n) <==> m == n
  {
    ParseNatToString(m);
    ParseNatToString(n);
  }

  /** `parts` glued together with `sep` between neighbours and none after the last. */
  function Join(parts: seq<string>, sep: char): string
  {
    if |parts| == 0 then ""
    else if |parts| == 1 then parts[0]
    else Join(parts[..|parts| - 1], sep) + [sep] + parts[|parts| - 1]
  }

  /** The maximal pieces of `s` that contain no `sep`, in order. */
  function Split(s: string, sep: char): (r: seq<string>)
    ensures |r| >= 1
    ensures forall i :: 0 <= i < |r| ==> sep !in r[i]
  {
    if |s| == 0 then [""]
    else
      var pre := Split(s[..|s| - 1], sep);
      var c := s[|s| - 1];
      if c == sep then pre + [""]
      else pre[..|pre| - 1] + [pre[|pre| - 1] + [c]]
  }

  /** Number of occurrences of `c` in `s`. */
  function Count(s: string, c: char): nat
  {
    if |s| == 0 then 0
    else Count(s[..|s| - 1], c) + (if s[|s| - 1] == c then 1 else 0)
  }

  /** The suffix of `s` that starts at the last `c` (all of `s` when it has none). */
  function FromLast(s: string, c: char): string
  {
    if |s| == 0 then ""
    else if s[|s| - 1] == c then [c]
    else FromLast(s[..|s| - 1], c) + [s[|s| - 1]]
  }

  /** The prefix of `s` up to and including its first `c` (all of `s` when it has none). */
  function UpToFirst(s: string, c: char): string
  {
    if |s| == 0 then ""
    else if s[0] == c then [c]
    else [s[0]] + UpToFirst(s[1..], c)
  }

  lemma {:induction false} CountSplit(s: string, sep: char)
    ensures |Split(s, sep)| == Count(s, sep) + 1
    decreases |s|
  {
    if |s| > 0 {
      CountSplit(s[..|s| - 1], sep);
    }
  }

  lemma {:induction false} CountAppend(a: string, b: string, c: char)
    ensures Count(a + b, c) == Count(a, c) + Count(b, c)
    decreases |b|
  {
    if |b| > 0 {
      assert (a + b)[..|a + b| - 1] == a + b[..|b| - 1];
      CountAppend(a, b[..|b| - 1], c);
    } else {
      assert a + b == a;
    }
  }

  /** Appending text free of `sep` only extends the last piece. */
  lemma {:induction false} SplitAppendPlain(a: string, b: string, sep: char)
    requires sep !in b
    ensures var p := Split(a, sep);
            Split(a + b, sep) == p[..|p| - 1] + [p[|p| - 1] + b]
    decreases |b|
  {
    var p := Split(a, sep);
    if |b| == 0 {
      assert a + b == a;
      assert p[|p| - 1] + b == p[|p| - 1];
      assert p[..|p| - 1] + [p[|p| - 1]] == p;
    } else {
      var b' := b[..|b| - 1];
      var c := b[|b| - 1];
      assert c in b;
      assert sep !in b' by {
        forall x | x in b' ensures x != sep {
          assert x in b;
        }
      }
      assert (a + b)[..|a + b| - 1] == a + b';
      SplitAppendPlain(a, b', sep);
      assert p[|p| - 1] + b' + [c] == p[|p| - 1] + b;
    }
  }

  /** A separator followed by text free of it adds exactly one piece. */
  lemma SplitAppendSep(a: string, b: string, sep: char)
    requires sep !in b
    ensures Split(a + [sep] + b, sep) == Split(a, sep) + [b]
  {
    var a' := a + [sep];
    assert a'[..|a'| - 1] == a;
    assert Split(a', sep) == Split(a, sep) + [""];
    SplitAppendPlain(a', b, sep);
    assert "" + b == b;
    assert a' + b == a + [sep] + b;
  }

  /** Splitting undoes joining when no part contains the separator. */
  lemma {:induction false} SplitJoin(parts: seq<string>, sep: char)
    requires |parts| >= 1
    requires forall i :: 0 <= i < |parts| ==> sep !in parts[i]
    ensures Split(Join(parts, sep), sep) == parts
    decreases |parts|
  {
    if |parts| == 1 {
      SplitAppendPlain("", parts[0], sep);
      assert "" + parts[0] == parts[0];
    } else {
      var init := parts[..|parts| - 1];
      SplitJoin(init, sep);
      SplitAppendSep(Join(init, sep), parts[|parts| - 1], sep);
      assert init + [parts[|parts| - 1]] == parts;
    }
  }

  /** Joining a head onto a non-empty list puts exactly one separator after it. */
  lemma {:induction false} JoinCons(x: string, xs: seq<string>, sep: char)
    requires |xs| >= 1
    ensures Join([x] + xs, sep) == x + [sep] + Join(xs, sep)
    decreases |xs|
  {
    var ys := [x] + xs;
    if |xs| == 1 {
      assert ys[..1] == [x];
    } else {
      var init := xs[..|xs| - 1];
      assert ys[..|ys| - 1] == [x] + init;
      JoinCons(x, init, sep);
    }
  }

  lemma {:induction false} FromLastAppend(a: string, c: char, b: string)
    requires c !in b
    ensures FromLast(a + [c] + b, c) == [c] + b
    decreases |b|
  {
    var s := a + [c] + b;
    if |b| == 0 {
      assert s[|s| - 1] == c;
    } else {
      var b' := b[..|b| - 1];
      assert b[|b| - 1] in b;
      assert c !in b' by {
        forall x | x in b' ensures x != c {
          assert x in b;
        }
      }
      assert s[..|s| - 1] == a + [c] + b';
      FromLastAppend(a, c, b');
      assert [c] + b' + [b[|b| - 1]] == [c] + b;
    }
  }

  lemma {:induction false} UpToFirstPrepend(a: string, c: char, b: string)
    requires c !in a
    ensures UpToFirst(a + [c] + b, c) == a + [c]
    decreases |a|
  {
    var s := a + [c] + b;
    if |a| == 0 {
      assert s[0] == c;
    } else {
      assert a[0] in a;
      assert s[1..] == a[1..] + [c] + b;
      assert c !in a[1..] by {
        forall x | x in a[1..] ensures x != c {
          assert x in a;
        }
      }
      UpToFirstPrepend(a[1..], c, b);
      assert [a[0]] + (a[1..] + [c]) == a + [c];
    }
  }

  /** A string of digits contains no non-digit character. */
  lemma DigitsExclude(s: string, c: char)
    requires AllDigits(s) && !IsDigit(c)
    ensures c !in s
  {
  }
}
