/** The string operations the analyzer applies to its input lines:
    `str.split`, `str.join`, `str.strip` with one character, and the
    groups of `re.findall(r'{(.*?)}', s)`. */
module Text {
  import opened Base

  /** `s.split(sep)` for a one-character separator: the pieces between the
      occurrences of `sep`; there is always at least one piece. */
  function Split(s: string, sep: char): (r: seq<string>)
    ensures |r| >= 1
    ensures forall i :: 0 <= i < |r| ==> sep !in r[i]
    decreases |s|
  {
    if s == [] then [[]]
    else
      var rest := Split(s[1..], sep);
      if s[0] == sep then [[]] + rest
      else [[s[0]] + rest[0]] + rest[1..]
  }

  /** `sep.join(parts)`. */
  function Join(parts: seq<string>, sep: char): string
  {
    if parts == [] then []
    else if |parts| == 1 then parts[0]
    else parts[0] + [sep] + Join(parts[1..], sep)
  }

  /** Splitting and joining again gives back the text. */
  lemma {:induction false} JoinSplit(s: string, sep: char)
    ensures Join(Split(s, sep), sep) == s
    decreases |s|
  {
    if s != [] {
      JoinSplit(s[1..], sep);
      var rest := Split(s[1..], sep);
      if s[0] == sep {
        assert ([[]] + rest)[1..] == rest;
      } else if |rest| > 1 {
        assert ([[s[0]] + rest[0]] + rest[1..])[1..] == rest[1..];
        assert rest == [rest[0]] + rest[1..];
      }
    }
  }

  /** A text without the separator splits into itself alone. */
  lemma {:induction false} SplitNoSep(p: string, sep: char)
    requires sep !in p
    ensures Split(p, sep) == [p]
    decreases |p|
  {
    if p != [] {
      SplitNoSep(p[1..], sep);
      assert [p[0]] + p[1..] == p;
    }
  }

  /** The first piece ends at the first separator; the rest is the split of
      what follows it. */
  lemma {:induction false} SplitAtFirst(p: string, sep: char, q: string)
    requires sep !in p
    ensures Split(p + [sep] + q, sep) == [p] + Split(q, sep)
    decreases |p|
  {
    if p == [] {
      assert [] + [sep] + q == [sep] + q;
      assert ([sep] + q)[1..] == q;
    } else {
      SplitAtFirst(p[1..], sep, q);
      assert (p + [sep] + q)[1..] == p[1..] + [sep] + q;
      assert [p[0]] + p[1..] == p;
    }
  }

  /** The separator occurs exactly when there are at least two pieces. */
  lemma {:induction false} SplitHasSep(s: string, sep: char)
    ensures |Split(s, sep)| >= 2 <==> sep in s
    decreases |s|
  {
    if s != [] {
      SplitHasSep(s[1..], sep);
      assert s == [s[0]] + s[1..];
    }
  }

  /** Splitting a join of separator-free pieces gives the pieces back. */
  lemma {:induction false} SplitJoin(parts: seq<string>, sep: char)
    requires |parts| >= 1
    requires forall i :: 0 <= i < |parts| ==> sep !in parts[i]
    ensures Split(Join(parts, sep), sep) == parts
    decreases |parts|
  {
    if |parts| == 1 {
      SplitNoSep(parts[0], sep);
    } else {
      SplitJoin(parts[1..], sep);
      SplitAtFirst(parts[0], sep, Join(parts[1..], sep));
      assert [parts[0]] + parts[1..] == parts;
    }
  }

  /** `s.lstrip(c)`: drops the leading run of `c`. */
  function LStrip(s: string, c: char): (r: string)
    ensures |r| <= |s| && r == s[|s| - |r|..]
    ensures r == [] || r[0] != c
    ensures forall i :: 0 <= i < |s| - |r| ==> s[i] == c
    decreases |s|
  {
    if s != [] && s[0] == c then LStrip(s[1..], c) else s
  }

  /** `s.rstrip(c)`: drops the trailing run of `c`. */
  function RStrip(s: string, c: char): (r: string)
    ensures |r| <= |s| && r == s[..|r|]
    ensures r == [] || r[|r| - 1] != c
    ensures forall i :: |r| <= i < |s| ==> s[i] == c
    decreases |s|
  {
    if s != [] && s[|s| - 1] == c then RStrip(s[..|s| - 1], c) else s
  }

  /** `s.strip(c)`: drops `c` from both ends and keeps the interior verbatim. */
  function Strip(s: string, c: char): (r: string)
    ensures |r| <= |s|
    ensures r == [] || (r[0] != c && r[|r| - 1] != c)
  {
    RStrip(LStrip(s, c), c)
  }

  /** Stripping removes only copies of `c`: every other character stays. */
  lemma StripKeeps(s: string, c: char, ch: char)
    requires ch != c
    ensures ch in Strip(s, c) <==> ch in s
  {
    LStripKeeps(s, c, ch);
    RStripKeeps(LStrip(s, c), c, ch);
  }

  lemma LStripKeeps(s: string, c: char, ch: char)
    requires ch != c
    ensures ch in LStrip(s, c) <==> ch in s
  {
    var l := LStrip(s, c);
    var d := |s| - |l|;
    assert l == s[d..];
    if ch in s {
      var i :| 0 <= i < |s| && s[i] == ch;
      assert d <= i;
      assert l[i - d] == s[i];
    }
    if ch in l {
      var j :| 0 <= j < |l| && l[j] == ch;
      assert s[j + d] == l[j];
    }
  }

  lemma RStripKeeps(s: string, c: char, ch: char)
    requires ch != c
    ensures ch in RStrip(s, c) <==> ch in s
  {
    var r := RStrip(s, c);
    if ch in s {
      var i :| 0 <= i < |s| && s[i] == ch;
      assert r[i] == ch;
    }
    if ch in r {
      var j :| 0 <= j < |r| && r[j] == ch;
      assert s[j] == ch;
    }
  }

  /** A text that neither starts nor ends with `c` is left as it is, so
      stripping twice is stripping once. */
  lemma StripFixed(s: string, c: char)
    requires s == [] || (s[0] != c && s[|s| - 1] != c)
    ensures Strip(s, c) == s
  {
  }

  /** Stripping a text padded with copies of `c` on both sides gives the
      text back, when the text itself neither starts nor ends with `c`. */
  lemma StripPadded(a: string, x: string, b: string, c: char)
    requires forall i :: 0 <= i < |a| ==> a[i] == c
    requires forall i :: 0 <= i < |b| ==> b[i] == c
    requires x == [] || (x[0] != c && x[|x| - 1] != c)
    ensures Strip(a + x + b, c) == x
  {
    if x == [] {
      var ab := a + b;
      assert a + x + b == ab + [];
      LStripPad(ab, [], c);
    } else {
      assert a + x + b == a + (x + b);
      LStripPad(a, x + b, c);
      RStripPad(x, b, c);
    }
  }

  lemma {:induction false} LStripPad(a: string, y: string, c: char)
    requires forall i :: 0 <= i < |a| ==> a[i] == c
    requires y == [] || y[0] != c
    ensures LStrip(a + y, c) == y
    decreases |a|
  {
    var s := a + y;
    if a == [] {
      assert s == y;
    } else {
      assert s[0] == c by {
        assert s[0] == a[0];
      }
      assert s[1..] == a[1..] + y;
      LStripPad(a[1..], y, c);
    }
  }

  lemma {:induction false} RStripPad(y: string, b: string, c: char)
    requires forall i :: 0 <= i < |b| ==> b[i] == c
    requires y == [] || y[|y| - 1] != c
    ensures RStrip(y + b, c) == y
    decreases |b|
  {
    var s := y + b;
    if b == [] {
      assert s == y;
    } else {
      var n := |b| - 1;
      assert s[|s| - 1] == c by {
        assert s[|s| - 1] == b[n];
      }
      assert s[..|s| - 1] == y + b[..n];
      RStripPad(y, b[..n], c);
    }
  }

  /** Index of the first `}` in `s`, when no newline comes before it: the
      regular expression's `.` does not match a newline. */
  function CloseBrace(s: string): (r: Option<nat>)
    ensures r.Some? ==> r.value < |s| && s[r.value] == '}'
    ensures r.Some? ==> '}' !in s[..r.value] && '\n' !in s[..r.value]
    ensures r.None? ==> forall k :: 0 <= k < |s| && s[k] == '}' ==> '\n' in s[..k]
  {
    if s == [] then None
    else if s[0] == '}' then Some(0)
    else if s[0] == '\n' then None
    else
      match CloseBrace(s[1..])
      case Some(k) => Some(k + 1)
      case None => None
  }

  /** The groups `re.findall(r'{(.*?)}', s)` returns, left to right: the
      shortest text between a `{` and the next `}`; scanning resumes after
      the `}`, or one character on when no `}` closes the `{`. */
  function Placeholders(s: string): (r: seq<string>)
    ensures forall i :: 0 <= i < |r| ==> '}' !in r[i] && '\n' !in r[i]
    decreases |s|
  {
    if s == [] then []
    else if s[0] == '{' then
      match CloseBrace(s[1..])
      case Some(k) => [s[1..k + 1]] + Placeholders(s[k + 2..])
      case None => Placeholders(s[1..])
    else Placeholders(s[1..])
  }

  /** Without an opening brace there is no placeholder. */
  lemma {:induction false} NoBraceNoPlaceholders(s: string)
    requires '{' !in s
    ensures Placeholders(s) == []
    decreases |s|
  {
    if s != [] {
      NoBraceNoPlaceholders(s[1..]);
    }
  }

  /** `{v}` after brace-free text is found as the placeholder `v`, and the
      scan goes on after it. */
  lemma {:induction false} PlaceholderFound(p: string, v: string, q: string)
    requires '{' !in p && '}' !in v && '\n' !in v
    ensures Placeholders(p + ['{'] + v + ['}'] + q) == [v] + Placeholders(q)
    decreases |p|
  {
    var s := p + ['{'] + v + ['}'] + q;
    if p == [] {
      assert s[1..] == v + ['}'] + q;
      CloseAfter(v, q);
      assert s[1..|v| + 1] == v;
      assert s[|v| + 2..] == q;
    } else {
      PlaceholderFound(p[1..], v, q);
      assert s[1..] == p[1..] + ['{'] + v + ['}'] + q;
    }
  }

  lemma {:induction false} CloseAfter(v: string, q: string)
    requires '}' !in v && '\n' !in v
    ensures CloseBrace(v + ['}'] + q) == Some(|v|)
    decreases |v|
  {
    if v != [] {
      CloseAfter(v[1..], q);
      assert (v + ['}'] + q)[1..] == v[1..] + ['}'] + q;
    }
  }
}
