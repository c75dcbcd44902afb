/**
  Small pure helpers of the reader view: HTML escaping of text shown in the
  question list and chat bubbles (`escapeHtml`), previous/next page
  clamping, and shortening of long file names for the header.
 */
module Viewer {
  import opened Strings

  // ---------- escapeHtml ----------

  /** `s.replace(/c/g, with)`: every occurrence of c replaced by `with`. */
  function ReplaceChar(s: string, c: char, with: string): string
  {
    if s == [] then "" else (if s[0] == c then with else [s[0]]) + ReplaceChar(s[1..], c, with)
  }

  /** `escapeHtml`: four global replacements, `&` first, then `<`, `>` and
      `"`. */
  function EscapeHtml(s: string): string
  {
    ReplaceChar(ReplaceChar(ReplaceChar(ReplaceChar(s, '&', "&amp;"), '<', "&lt;"), '>', "&gt;"), '"', "&quot;")
  }

  /** The character reference written for one character. */
  function EscapeChar(c: char): string
  {
    if c == '&' then "&amp;"
    else if c == '<' then "&lt;"
    else if c == '>' then "&gt;"
    else if c == '"' then "&quot;"
    else [c]
  }

  /** A reference definition of escaping: each character by itself. */
  function EscapeEach(s: string): string
  {
    if s == [] then "" else EscapeChar(s[0]) + EscapeEach(s[1..])
  }

  /** Decoding the four character references, left to right. */
  function Unescape(s: string): string
    decreases |s|
  {
    if |s| >= 5 && s[..5] == "&amp;" then "&" + Unescape(s[5..])
    else if |s| >= 4 && s[..4] == "&lt;" then "<" + Unescape(s[4..])
    else if |s| >= 4 && s[..4] == "&gt;" then ">" + Unescape(s[4..])
    else if |s| >= 6 && s[..6] == "&quot;" then "\"" + Unescape(s[6..])
    else if s == [] then ""
    else [s[0]] + Unescape(s[1..])
  }

  lemma {:induction false} ReplaceCharAppend(a: string, b: string, c: char, with: string)
    ensures ReplaceChar(a + b, c, with) == ReplaceChar(a, c, with) + ReplaceChar(b, c, with)
  {
    if a != [] {
      assert (a + b)[1..] == a[1..] + b;
      ReplaceCharAppend(a[1..], b, c, with);
    } else {
      assert a + b == b;
    }
  }

  lemma {:induction false} ReplaceCharAbsent(s: string, c: char, with: string)
    requires forall k :: 0 <= k < |s| ==> s[k] != c
    ensures ReplaceChar(s, c, with) == s
  {
    if s != [] {
      ReplaceCharAbsent(s[1..], c, with);
    }
  }

  lemma EscapeHtmlAppend(a: string, b: string)
    ensures EscapeHtml(a + b) == EscapeHtml(a) + EscapeHtml(b)
  {
    var a1, b1 := ReplaceChar(a, '&', "&amp;"), ReplaceChar(b, '&', "&amp;");
    ReplaceCharAppend(a, b, '&', "&amp;");
    var a2, b2 := ReplaceChar(a1, '<', "&lt;"), ReplaceChar(b1, '<', "&lt;");
    ReplaceCharAppend(a1, b1, '<', "&lt;");
    var a3, b3 := ReplaceChar(a2, '>', "&gt;"), ReplaceChar(b2, '>', "&gt;");
    ReplaceCharAppend(a2, b2, '>', "&gt;");
    ReplaceCharAppend(a3, b3, '"', "&quot;");
  }

  lemma ReplaceCharOne(c: char, d: char, with: string)
    ensures ReplaceChar([c], d, with) == if c == d then with else [c]
  {
    assert [c][1..] == [];
  }

  lemma EscapeHtmlOneChar(c: char)
    ensures EscapeHtml([c]) == EscapeChar(c)
  {
    var s1 := ReplaceChar([c], '&', "&amp;");
    ReplaceCharOne(c, '&', "&amp;");
    if c == '&' {
      ReplaceCharAbsent("&amp;", '<', "&lt;");
      ReplaceCharAbsent("&amp;", '>', "&gt;");
      ReplaceCharAbsent("&amp;", '"', "&quot;");
    } else {
      ReplaceCharOne(c, '<', "&lt;");
      if c == '<' {
        ReplaceCharAbsent("&lt;", '>', "&gt;");
        ReplaceCharAbsent("&lt;", '"', "&quot;");
      } else {
        ReplaceCharOne(c, '>', "&gt;");
        if c == '>' {
          ReplaceCharAbsent("&gt;", '"', "&quot;");
        } else {
          ReplaceCharOne(c, '"', "&quot;");
        }
      }
    }
  }

  /** Because `&` is replaced before the references are introduced, the four
      passes amount to escaping each character of the input once. */
  lemma {:induction false} EscapeHtmlIsEscapeEach(s: string)
    ensures EscapeHtml(s) == EscapeEach(s)
  {
    if s != [] {
      assert s == [s[0]] + s[1..];
      EscapeHtmlAppend([s[0]], s[1..]);
      EscapeHtmlOneChar(s[0]);
      EscapeHtmlIsEscapeEach(s[1..]);
    } else {
      assert EscapeHtml([]) == [];
    }
  }

  /** Escaped text holds no `<`, `>` or `"`, so it cannot open a tag or close
      an attribute value. */
  lemma {:induction false} EscapeHtmlSafe(s: string)
    ensures forall k :: 0 <= k < |EscapeHtml(s)| ==>
      EscapeHtml(s)[k] != '<' && EscapeHtml(s)[k] != '>' && EscapeHtml(s)[k] != '"'
  {
    EscapeHtmlIsEscapeEach(s);
    EscapeEachSafe(s);
  }

  lemma {:induction false} EscapeEachSafe(s: string)
    ensures forall k :: 0 <= k < |EscapeEach(s)| ==>
      EscapeEach(s)[k] != '<' && EscapeEach(s)[k] != '>' && EscapeEach(s)[k] != '"'
  {
    if s != [] {
      EscapeEachSafe(s[1..]);
      var head := EscapeChar(s[0]);
      var rest := EscapeEach(s[1..]);
      assert forall k :: |head| <= k < |head + rest| ==> (head + rest)[k] == rest[k - |head|];
    }
  }

  lemma UnescapeEscapeChar(c: char, rest: string)
    ensures Unescape(EscapeChar(c) + rest) == [c] + Unescape(rest)
  {
    var e := EscapeChar(c) + rest;
    if c == '&' {
      assert e[..5] == "&amp;" && e[5..] == rest;
    } else if c == '<' {
      assert e[1] == 'l';
      assert |e| >= 5 ==> e[..5][1] != "&amp;"[1];
      assert e[..4] == "&lt;" && e[4..] == rest;
    } else if c == '>' {
      assert e[1] == 'g';
      assert |e| >= 5 ==> e[..5][1] != "&amp;"[1];
      assert e[..4][1] != "&lt;"[1];
      assert e[..4] == "&gt;" && e[4..] == rest;
    } else if c == '"' {
      assert e[1] == 'q';
      assert e[..5][1] != "&amp;"[1];
      assert e[..4][1] != "&lt;"[1];
      assert e[..4][1] != "&gt;"[1];
      assert e[..6] == "&quot;" && e[6..] == rest;
    } else {
      assert e[0] == c && e[1..] == rest;
      assert |e| >= 5 ==> e[..5][0] != "&amp;"[0];
      assert |e| >= 4 ==> e[..4][0] != "&lt;"[0] && e[..4][0] != "&gt;"[0];
      assert |e| >= 6 ==> e[..6][0] != "&quot;"[0];
    }
  }

  /** Decoding the escaped text gives back the original text exactly. */
  lemma {:induction false} EscapeHtmlRoundTrip(s: string)
    ensures Unescape(EscapeHtml(s)) == s
  {
    EscapeHtmlIsEscapeEach(s);
    EscapeEachRoundTrip(s);
  }

  lemma {:induction false} EscapeEachRoundTrip(s: string)
    ensures Unescape(EscapeEach(s)) == s
  {
    if s != [] {
      UnescapeEscapeChar(s[0], EscapeEach(s[1..]));
      EscapeEachRoundTrip(s[1..]);
    }
  }

  // ---------- Page navigation ----------

  /** The previous-page button: one page back, never before page 1. */
  function PrevPage(current: int): (r: int)
    ensures r >= 1
    ensures current > 1 ==> r == current - 1
    ensures current <= 1 ==> r == 1
  {
    if current - 1 >= 1 then current - 1 else 1
  }

  /** The next-page button: one page on, never past the last page. */
  function NextPage(current: int, numPages: int): (r: int)
    ensures r <= numPages
    ensures current < numPages ==> r == current + 1
    ensures current >= numPages ==> r == numPages
  {
    Min(numPages, current + 1)
  }

  /** From any page of the document the buttons lead to a page of the
      document, moving by at most one page. */
  lemma NavigationStaysInDocument(current: int, numPages: int)
    requires 1 <= current <= numPages
    ensures 1 <= PrevPage(current) <= current && current - PrevPage(current) <= 1
    ensures current <= NextPage(current, numPages) <= numPages && NextPage(current, numPages) - current <= 1
  {
  }

  /** Next then previous returns to the page one started from, except on the
      last page; previous then next likewise, except on the first. */
  lemma NavigationRoundTrip(current: int, numPages: int)
    requires 1 <= current <= numPages
    ensures current < numPages ==> PrevPage(NextPage(current, numPages)) == current
    ensures current > 1 ==> NextPage(PrevPage(current), numPages) == current
  {
  }

  // ---------- File name ----------

  /** Names longer than 30 characters are cut to their first 28 followed by
      an ellipsis; shorter names are shown as they are. */
  function DisplayFileName(name: string): (r: string)
    ensures |r| <= 30
    ensures |name| <= 30 ==> r == name
    ensures |name| > 30 ==> |r| == 29 && r[..28] == name[..28] && r[28] == '\U{2026}'
  {
    if |name| > 30 then name[..28] + "\U{2026}" else name
  }

  /** A displayed name is displayed unchanged. */
  lemma DisplayFileNameStable(name: string)
    ensures DisplayFileName(DisplayFileName(name)) == DisplayFileName(name)
  {
  }
}
