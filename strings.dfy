/**
  String helpers shared by the reading assistant: the JavaScript `trim()`
  and `Array.prototype.join` semantics, prefix truncation (`slice(0, n)`)
  and decimal rendering of natural numbers (template-literal interpolation).
 */
module Strings {

  datatype Option<+T> = None | Some(value: T)

  function Min(a: int, b: int): int { if a <= b then a else b }

  /** The characters removed by `String.prototype.trim`: ECMAScript
      WhiteSpace (TAB, VT, FF, ZWNBSP and the space separators) and
      LineTerminator (LF, CR, LS, PS). */
  predicate IsSpace(c: char)
  {
    || ('\t' <= c <= '\r')
    || c == ' ' || c == '\U{00A0}' || c == '\U{1680}'
    || ('\U{2000}' <= c <= '\U{200A}')
    || ('\U{2028}' <= c <= '\U{2029}') || c == '\U{202F}' || c == '\U{205F}'
    || c == '\U{3000}' || c == '\U{FEFF}'
  }

  /** Every character of `s` is trimmable: `s.trim()` is empty. */
  predicate IsBlank(s: string)
  {
    forall k :: 0 <= k < |s| ==> IsSpace(s[k])
  }

  /** Drops leading whitespace: the result is the suffix of `s` that starts at
      its first non-space character. */
  function TrimStart(s: string): (r: string)
    ensures |r| <= |s| && r == s[|s| - |r|..]
    ensures r == [] || !IsSpace(r[0])
  {
    if |s| > 0 && IsSpace(s[0]) then TrimStart(s[1..]) else s
  }

  /** Everything TrimStart drops is whitespace. */
  lemma {:induction false} TrimStartDropsSpaces(s: string)
    ensures forall k :: 0 <= k < |s| - |TrimStart(s)| ==> IsSpace(s[k])
  {
    if |s| > 0 && IsSpace(s[0]) {
      TrimStartDropsSpaces(s[1..]);
    }
  }

  /** Drops trailing whitespace: the result is the prefix of `s` that ends at
      its last non-space character. */
  function TrimEnd(s: string): (r: string)
    ensures |r| <= |s| && r == s[..|r|]
    ensures r == [] || !IsSpace(r[|r| - 1])
  {
    if |s| > 0 && IsSpace(s[|s| - 1]) then TrimEnd(s[..|s| - 1]) else s
  }

  /** Everything TrimEnd drops is whitespace. */
  lemma {:induction false} TrimEndDropsSpaces(s: string)
    ensures forall k :: |TrimEnd(s)| <= k < |s| ==> IsSpace(s[k])
  {
    if |s| > 0 && IsSpace(s[|s| - 1]) {
      TrimEndDropsSpaces(s[..|s| - 1]);
    }
  }

  /** `s.trim()`. */
  function Trim(s: string): string
  {
    TrimEnd(TrimStart(s))
  }

  /** Trim characterised independently of how it scans: it cuts out a
      contiguous slice, and everything cut away on either side is
      whitespace. */
  lemma {:induction false} TrimIsSlice(s: string)
    ensures var i := |s| - |TrimStart(s)|;
      && i + |Trim(s)| <= |s|
      && Trim(s) == s[i..i + |Trim(s)|]
      && (forall k :: 0 <= k < i ==> IsSpace(s[k]))
      && (forall k :: i + |Trim(s)| <= k < |s| ==> IsSpace(s[k]))
  {
    var t := TrimStart(s);
    var i := |s| - |t|;
    var r := TrimEnd(t);
    TrimKeepsSlice(s);
    TrimStartDropsSpaces(s);
    TrimEndDropsSpaces(t);
    SpacesAfterSlice(s, i, t, |r|);
  }

  /** What Trim keeps is the slice of `s` that TrimStart starts at. */
  lemma TrimKeepsSlice(s: string)
    ensures var i := |s| - |TrimStart(s)|;
      i + |Trim(s)| <= |s| && Trim(s) == s[i..i + |Trim(s)|]
  {
    var t := TrimStart(s);
    SliceOfSuffix(s, |s| - |t|, t, TrimEnd(t));
  }

  /** A prefix of the suffix of `s` from `i` is a slice of `s`. */
  lemma SliceOfSuffix<T>(s: seq<T>, i: nat, t: seq<T>, r: seq<T>)
    requires i <= |s| && t == s[i..] && |r| <= |t| && r == t[..|r|]
    ensures r == s[i..i + |r|]
  {
  }

  /** Whitespace at the end of the suffix of `s` from `i` is whitespace at
      the end of `s`. */
  lemma SpacesAfterSlice(s: string, i: nat, t: string, n: nat)
    requires i <= |s| && t == s[i..] && n <= |t|
    requires forall k :: n <= k < |t| ==> IsSpace(t[k])
    ensures forall k :: i + n <= k < |s| ==> IsSpace(s[k])
  {
    forall k | i + n <= k < |s|
      ensures IsSpace(s[k])
    {
      assert s[k] == t[k - i];
    }
  }

  /** The slice Trim keeps neither starts nor ends with whitespace. */
  lemma TrimmedEnds(s: string)
    ensures Trim(s) == [] || (!IsSpace(Trim(s)[0]) && !IsSpace(Trim(s)[|Trim(s)| - 1]))
  {
    var t := TrimStart(s);
    var r := TrimEnd(t);
    assert r != [] ==> r[0] == t[0];
  }

  /** Trimming twice is trimming once. */
  lemma TrimIdempotent(s: string)
    ensures Trim(Trim(s)) == Trim(s)
  {
    TrimmedEnds(s);
    var r := Trim(s);
    assert TrimStart(r) == r;
    assert TrimEnd(r) == r;
  }

  /** `s.trim()` is empty exactly when `s` is blank. */
  lemma TrimEmptyIffBlank(s: string)
    ensures Trim(s) == [] <==> IsBlank(s)
  {
    TrimIsSlice(s);
    var t := TrimStart(s);
    assert t == [] || t[0] == s[|s| - |t|];
  }

  /** Trimming a string without whitespace at its ends changes nothing. */
  lemma TrimUnpadded(s: string)
    requires s == [] || (!IsSpace(s[0]) && !IsSpace(s[|s| - 1]))
    ensures Trim(s) == s
  {
  }

  /** Whitespace around a string whose ends are not whitespace is exactly
      what trimming removes. */
  lemma TrimPadded(a: string, x: string, b: string)
    requires IsBlank(a) && IsBlank(b)
    requires x != [] && !IsSpace(x[0]) && !IsSpace(x[|x| - 1])
    ensures Trim(a + x + b) == x
  {
    assert a + x + b == a + (x + b);
    TrimStartBlankPrefix(a, x + b);
    TrimEndBlankSuffix(x, b);
  }

  lemma {:induction false} TrimStartBlankPrefix(a: string, t: string)
    requires IsBlank(a)
    requires t == [] || !IsSpace(t[0])
    ensures TrimStart(a + t) == t
  {
    if a != [] {
      assert (a + t)[1..] == a[1..] + t;
      TrimStartBlankPrefix(a[1..], t);
    } else {
      assert a + t == t;
    }
  }

  lemma {:induction false} TrimEndBlankSuffix(t: string, b: string)
    requires IsBlank(b)
    requires t == [] || !IsSpace(t[|t| - 1])
    ensures TrimEnd(t + b) == t
  {
    if b != [] {
      assert (t + b)[..|t + b| - 1] == t + b[..|b| - 1];
      TrimEndBlankSuffix(t, b[..|b| - 1]);
    } else {
      assert t + b == t;
    }
  }

  /** `xs.join(sep)`: the empty array joins to the empty string. */
  function Join(xs: seq<string>, sep: string): string
  {
    if |xs| == 0 then "" else if |xs| == 1 then xs[0] else xs[0] + sep + Join(xs[1..], sep)
  }

  /** Element `i` stands in the joined string between the join of the elements
      before it and the join of those after it, one separator on each side. */
  lemma {:induction false} JoinAt(xs: seq<string>, sep: string, i: nat)
    requires i < |xs|
    ensures Join(xs, sep) ==
      Join(xs[..i], sep) + (if i > 0 then sep else "") + xs[i]
      + (if i + 1 < |xs| then sep + Join(xs[i + 1..], sep) else "")
  {
    if i > 0 {
      var rest := xs[1..];
      JoinAt(rest, sep, i - 1);
      assert rest[..i - 1] == xs[1..i];
      assert rest[i - 1] == xs[i];
      assert rest[i..] == xs[i + 1..];
      var before := Join(xs[1..i], sep) + (if i > 1 then sep else "");
      var after := if i + 1 < |xs| then sep + Join(xs[i + 1..], sep) else "";
      assert Join(rest, sep) == before + xs[i] + after;
      if i > 1 {
        assert xs[..i][1..] == xs[1..i];
        assert Join(xs[..i], sep) == xs[0] + sep + Join(xs[1..i], sep);
      } else {
        assert Join(xs[..i], sep) == xs[0];
      }
      assert Join(xs[..i], sep) + sep == xs[0] + sep + before;
      Regroup(xs[0] + sep, before, xs[i], after);
    }
  }

  /** Moving the head of a concatenation out of its parentheses. */
  lemma Regroup<T>(a: seq<T>, b: seq<T>, c: seq<T>, d: seq<T>)
    ensures a + (b + c + d) == (a + b) + c + d
  {
  }

  /** Where element i starts in `Join(lines, "\n")`. */
  function LineStart(lines: seq<string>, i: nat): nat
    requires i <= |lines|
  {
    |Join(lines[..i], "\n")| + (if i > 0 then 1 else 0)
  }

  /** In a newline-joined list, element i stands on a line of its own: it
      starts at `LineStart(lines, i)`, just after a newline or at the start,
      and is followed by a newline or the end. */
  lemma JoinLineAt(lines: seq<string>, i: nat)
    requires i < |lines|
    ensures var joined := Join(lines, "\n");
      var p := LineStart(lines, i);
      var q := p + |lines[i]|;
      && q <= |joined|
      && joined[p..q] == lines[i]
      && (p == 0 || joined[p - 1] == '\n')
      && (q == |joined| || joined[q] == '\n')
  {
    JoinAt(lines, "\n", i);
    var before := Join(lines[..i], "\n") + (if i > 0 then "\n" else "");
    var after := if i + 1 < |lines| then "\n" + Join(lines[i + 1..], "\n") else "";
    var joined := before + lines[i] + after;
    assert |before| == LineStart(lines, i);
    assert joined[|before|..|before| + |lines[i]|] == lines[i];
  }

  /** A line of `joined` stays a line of its own behind a prefix that ends
      in a newline. */
  lemma LineAfterPrefix(prefix: string, joined: string, p: nat, len: nat)
    requires prefix != [] && prefix[|prefix| - 1] == '\n'
    requires p + len <= |joined|
    requires p == 0 || joined[p - 1] == '\n'
    requires p + len == |joined| || joined[p + len] == '\n'
    ensures var s := prefix + joined;
      var p' := |prefix| + p;
      && 0 < p' && p' + len <= |s|
      && s[p'..p' + len] == joined[p..p + len]
      && s[p' - 1] == '\n'
      && (p' + len == |s| || s[p' + len] == '\n')
  {
    var s := prefix + joined;
    assert s[|prefix| + p..|prefix| + p + len] == joined[p..p + len];
    assert p > 0 ==> s[|prefix| + p - 1] == joined[p - 1];
    assert p + len < |joined| ==> s[|prefix| + p + len] == joined[p + len];
  }

  /** Element i of a newline-joined list, placed behind a prefix that ends in
      a newline, starts a line and ends one. */
  lemma JoinedLineAfterPrefix(prefix: string, lines: seq<string>, i: nat)
    requires prefix != [] && prefix[|prefix| - 1] == '\n'
    requires i < |lines|
    ensures var s := prefix + Join(lines, "\n");
      var p := |prefix| + LineStart(lines, i);
      var q := p + |lines[i]|;
      && 0 < p <= q <= |s|
      && s[p..q] == lines[i]
      && s[p - 1] == '\n'
      && (q == |s| || s[q] == '\n')
  {
    JoinLineAt(lines, i);
    LineAfterPrefix(prefix, Join(lines, "\n"), LineStart(lines, i), |lines[i]|);
  }

  lemma AppendAssociates<T>(a: seq<T>, b: seq<T>, c: seq<T>)
    ensures a + (b + c) == (a + b) + c
  {
  }

  /** `s.slice(0, n)` for n >= 0, on strings and arrays alike. */
  function Prefix<T>(s: seq<T>, n: nat): (r: seq<T>)
    ensures |r| == Min(n, |s|)
    ensures r == s[..|r|]
  {
    if |s| <= n then s else s[..n]
  }

  function DigitChar(d: nat): char
    requires d < 10
  {
    "0123456789"[d]
  }

  function DigitValue(c: char): int
  {
    c as int - '0' as int
  }

  /** Decimal rendering of a natural number, as `${n}` prints it. */
  function NatToString(n: nat): (r: string)
    ensures |r| > 0
    ensures forall k :: 0 <= k < |r| ==> '0' <= r[k] <= '9'
    ensures r[0] == '0' ==> n == 0
  {
    if n < 10 then [DigitChar(n)] else NatToString(n / 10) + [DigitChar(n % 10)]
  }

  /** The number a string of decimal digits denotes. */
  function DecimalValue(s: string): int
  {
    if s == [] then 0 else 10 * DecimalValue(s[..|s| - 1]) + DigitValue(s[|s| - 1])
  }

  /** Rendering a number and reading it back gives the number. */
  lemma {:induction false} NatToStringRoundTrip(n: nat)
    ensures DecimalValue(NatToString(n)) == n
  {
    if n >= 10 {
      NatToStringRoundTrip(n / 10);
      var s := NatToString(n);
      assert s[..|s| - 1] == NatToString(n / 10);
    }
  }
}
