/**
  Document text extraction (`extractAllText`): the text items of the first
  40 pages, one line per page, trimmed and cut to 28,000 characters so that
  the document fits the completion service's context.

  A document is given as plain data: one sequence of text-item strings per
  page, in page order.
 */
module Extraction {
  import opened Strings

  /** Pages read from a document (`Math.min(numPages, 40)`). */
  const MaxPages: nat := 40
  /** Characters of extracted text kept (`slice(0, 28000)`). */
  const MaxChars: nat := 28000

  /** One page's contribution: its items joined with single spaces, then a
      newline. */
  function PageText(items: seq<string>): string
  {
    Join(items, " ") + "\n"
  }

  /** The untrimmed text of `pages`, page after page. */
  function RawText(pages: seq<seq<string>>): string
  {
    if pages == [] then "" else RawText(pages[..|pages| - 1]) + PageText(pages[|pages| - 1])
  }

  /** The pages that are read: at most the first 40. */
  function ReadPages(pages: seq<seq<string>>): (r: seq<seq<string>>)
    ensures |r| == Min(|pages|, MaxPages)
    ensures r == pages[..|r|]
  {
    pages[..Min(|pages|, MaxPages)]
  }

  /** What the extractor produces for a document: never more than 28,000
      characters, a prefix of the trimmed page text, and all of that text when
      it is short enough. */
  function ExtractedText(pages: seq<seq<string>>): (r: string)
    ensures |r| <= MaxChars
    ensures var full := Trim(RawText(ReadPages(pages)));
      && |r| <= |full| && r == full[..|r|]
      && (|full| <= MaxChars ==> r == full)
      && (|full| > MaxChars ==> |r| == MaxChars)
  {
    Prefix(Trim(RawText(ReadPages(pages))), MaxChars)
  }

  /** Walks the pages in order, appending each page's line, then trims and
      truncates. */
  method ExtractAllText(pages: seq<seq<string>>) returns (text: string)
    ensures text == ExtractedText(pages)
  {
    text := "";
    var i := 1;
    while i <= Min(|pages|, MaxPages)
      invariant 1 <= i <= Min(|pages|, MaxPages) + 1
      invariant text == RawText(pages[..i - 1])
    {
      assert pages[..i][..i - 1] == pages[..i - 1];
      text := text + Join(pages[i - 1], " ") + "\n";
      i := i + 1;
    }
    text := Prefix(Trim(text), MaxChars);
  }

  /** The raw text of two runs of pages is the raw text of the first followed
      by that of the second. */
  lemma {:induction false} RawTextAppend(a: seq<seq<string>>, b: seq<seq<string>>)
    ensures RawText(a + b) == RawText(a) + RawText(b)
  {
    if b != [] {
      var b' := b[..|b| - 1];
      assert (a + b)[..|a + b| - 1] == a + b';
      assert (a + b)[|a + b| - 1] == b[|b| - 1];
      RawTextAppend(a, b');
    } else {
      assert a + b == a;
    }
  }

  /** Page order: page k's line stands right after the lines of pages 0..k-1
      and right before the lines of the later pages. */
  lemma PageInOrder(pages: seq<seq<string>>, k: nat)
    requires k < |pages|
    ensures RawText(pages) == RawText(pages[..k]) + PageText(pages[k]) + RawText(pages[k + 1..])
  {
    var before, after := pages[..k], pages[k + 1..];
    SplitAt(pages, k);
    RawTextAppend(before + [pages[k]], after);
    RawTextAppend(before, [pages[k]]);
    RawTextOnePage(pages[k]);
  }

  lemma SplitAt<T>(s: seq<T>, k: nat)
    requires k < |s|
    ensures s == (s[..k] + [s[k]]) + s[k + 1..]
  {
    assert s[..k + 1] == s[..k] + [s[k]];
    assert s == s[..k + 1] + s[k + 1..];
  }

  lemma RawTextOnePage(items: seq<string>)
    ensures RawText([items]) == PageText(items)
  {
    assert [items][..0] == [];
  }

  /** Pages after the 40th are never read: the extracted text of a document
      is that of its first 40 pages, whatever follows them. */
  lemma LaterPagesIgnored(pages: seq<seq<string>>, more: seq<seq<string>>)
    requires |pages| >= MaxPages
    ensures ExtractedText(pages + more) == ExtractedText(pages[..MaxPages])
  {
    assert (pages + more)[..MaxPages] == pages[..MaxPages];
    assert pages[..MaxPages][..MaxPages] == pages[..MaxPages];
  }

  /** A document of at most 40 pages is read in full. */
  lemma ShortDocumentReadWhole(pages: seq<seq<string>>)
    requires |pages| <= MaxPages
    ensures ExtractedText(pages) == Prefix(Trim(RawText(pages)), MaxChars)
  {
    assert pages[..|pages|] == pages;
  }

  /** Every page read ends in a newline, so a document whose pages carry no
      text at all extracts to the empty string. */
  lemma TextlessDocumentIsEmpty(pages: seq<seq<string>>)
    requires forall p :: 0 <= p < |pages| ==> forall j :: 0 <= j < |pages[p]| ==> pages[p][j] == ""
    ensures ExtractedText(pages) == ""
  {
    var read := ReadPages(pages);
    BlankRawText(read);
    TrimEmptyIffBlank(RawText(read));
  }

  lemma {:induction false} BlankRawText(pages: seq<seq<string>>)
    requires forall p :: 0 <= p < |pages| ==> forall j :: 0 <= j < |pages[p]| ==> pages[p][j] == ""
    ensures IsBlank(RawText(pages))
  {
    if pages != [] {
      BlankRawText(pages[..|pages| - 1]);
      BlankJoin(pages[|pages| - 1]);
    }
  }

  lemma {:induction false} BlankJoin(items: seq<string>)
    requires forall j :: 0 <= j < |items| ==> items[j] == ""
    ensures IsBlank(Join(items, " "))
  {
    if |items| > 1 {
      BlankJoin(items[1..]);
    }
  }
}
