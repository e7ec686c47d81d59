/**
 * split_pdf.py: a page opens a question when its text shows all four choice
 * labels `A. ` .. `D. `; every question is the run of pages from its opening
 * page up to the page before the next one (or the last page), written to
 * `question_<k>.pdf`. Reading and writing PDFs is left out: a page is given as
 * its extracted text, or `None` when the extraction raised.
 */
module Segmenter {
  import opened Text

  // --------------------------------------------------- the page predicate

  /** `\bL\.\s` at `i`: the label is not glued to a preceding word character. */
  predicate MarkerAt(s: string, letter: char, i: nat) {
    i + 2 < |s| && s[i] == letter && s[i + 1] == '.' && IsWs(s[i + 2]) &&
    (i == 0 || !IsWordChar(s[i - 1]))
  }

  /** `re.search(r'\bL\.\s', s[i:])` succeeds, scanning left to right. */
  function SearchMarker(s: string, letter: char, i: nat): (r: bool)
    ensures r <==> exists j: nat :: i <= j && MarkerAt(s, letter, j)
    decreases |s| - i
  {
    if i >= |s| then false
    else MarkerAt(s, letter, i) || SearchMarker(s, letter, i + 1)
  }

  /** The text shows choice label `letter` somewhere. */
  ghost predicate Shows(s: string, letter: char) {
    exists j: nat :: MarkerAt(s, letter, j)
  }

  /**
   * `has_multiple_choice_options`: all four labels occur, each at a word
   * boundary and followed by whitespace, in any order.
   */
  function HasMultipleChoiceOptions(text: string): (r: bool)
    ensures r <==> Shows(text, 'A') && Shows(text, 'B') && Shows(text, 'C') && Shows(text, 'D')
  {
    SearchMarker(text, 'A', 0) && SearchMarker(text, 'B', 0) &&
    SearchMarker(text, 'C', 0) && SearchMarker(text, 'D', 0)
  }

  /** A page opens a question; a page whose extraction raised is skipped. */
  predicate IsStartPage(page: Option<string>) {
    page.Some? && HasMultipleChoiceOptions(page.value)
  }

  // ------------------------------------------------------ question starts

  predicate StrictlyIncreasing(xs: seq<nat>) {
    forall i, j :: 0 <= i < j < |xs| ==> xs[i] < xs[j]
  }

  /**
   * The loop over the pages that collects the question starts: the pages
   * that open a question, in increasing order, and no other page.
   */
  method FindQuestionStarts(pages: seq<Option<string>>) returns (starts: seq<nat>)
    ensures ValidStarts(starts, |pages|)
    ensures forall i :: 0 <= i < |starts| ==> starts[i] < |pages| && IsStartPage(pages[starts[i]])
    ensures forall p :: 0 <= p < |pages| && IsStartPage(pages[p]) ==> p in starts
  {
    starts := [];
    for pageNum := 0 to |pages|
      invariant StrictlyIncreasing(starts)
      invariant forall i :: 0 <= i < |starts| ==> starts[i] < pageNum && IsStartPage(pages[starts[i]])
      invariant forall p :: 0 <= p < pageNum && IsStartPage(pages[p]) ==> p in starts
    {
      if IsStartPage(pages[pageNum]) {
        starts := starts + [pageNum];
      }
    }
  }

  // --------------------------------------------------------------- blocks

  /** The pages `first .. last` of one question, both included. */
  datatype Block = Block(first: nat, last: int)

  /** Block `i`: from its start to the page before the next start, or to the last page. */
  function BlockAt(starts: seq<nat>, total: nat, i: nat): Block
    requires i < |starts|
  {
    Block(starts[i], if i + 1 < |starts| then starts[i + 1] - 1 else total - 1)
  }

  /** The starts are increasing page numbers of the document. */
  predicate ValidStarts(starts: seq<nat>, total: nat) {
    StrictlyIncreasing(starts) && forall i :: 0 <= i < |starts| ==> starts[i] < total
  }

  /**
   * Every block is a non-empty run of pages of the document, each block starts
   * right after the one before it, and the last one ends on the last page.
   */
  lemma BlockBounds(starts: seq<nat>, total: nat, i: nat)
    requires ValidStarts(starts, total) && i < |starts|
    ensures BlockAt(starts, total, i).first <= BlockAt(starts, total, i).last < total
    ensures i + 1 < |starts| ==> BlockAt(starts, total, i + 1).first == BlockAt(starts, total, i).last + 1
    ensures i + 1 == |starts| ==> BlockAt(starts, total, i).last == total - 1
  {
    if i + 1 < |starts| {
      assert starts[i] < starts[i + 1];
    }
  }

  /** The block that holds page `p`, if any. */
  predicate InBlock(starts: seq<nat>, total: nat, i: nat, p: int)
    requires i < |starts|
  {
    BlockAt(starts, total, i).first <= p <= BlockAt(starts, total, i).last
  }

  /**
   * The blocks cover exactly the pages from the first start to the last page,
   * each page in exactly one block; the pages before the first start, and
   * every page when there is no start, belong to no block.
   */
  lemma BlocksPartitionPages(starts: seq<nat>, total: nat, p: int)
    requires ValidStarts(starts, total)
    ensures (exists i :: 0 <= i < |starts| && InBlock(starts, total, i, p)) <==>
            |starts| > 0 && starts[0] <= p < total
    ensures forall i, j ::
              0 <= i < |starts| && 0 <= j < |starts| &&
              InBlock(starts, total, i, p) && InBlock(starts, total, j, p)
              ==> i == j
  {
    if |starts| > 0 && starts[0] <= p < total {
      var i := LastStartAtOrBefore(starts, p);
      assert InBlock(starts, total, i, p);
    }
  }

  /** The last start at or before `p`, for a page at or after the first start. */
  lemma LastStartAtOrBefore(starts: seq<nat>, p: int) returns (i: nat)
    requires StrictlyIncreasing(starts) && |starts| > 0 && starts[0] <= p
    ensures i < |starts| && starts[i] <= p
    ensures i + 1 < |starts| ==> p < starts[i + 1]
  {
    i := 0;
    while i + 1 < |starts| && starts[i + 1] <= p
      invariant i < |starts| && starts[i] <= p
      decreases |starts| - i
    {
      i := i + 1;
    }
  }

  // ----------------------------------------------------------- file names

  /** Decimal digits of `n`, as `str(n)`. */
  function NatToString(n: nat): (r: string)
    ensures |r| > 0 && forall k :: 0 <= k < |r| ==> IsDigit(r[k])
    ensures |r| > 1 ==> r[0] != '0'
    decreases n
  {
    if n < 10 then [('0' as int + n) as char]
    else NatToString(n / 10) + [('0' as int + n % 10) as char]
  }

  function DigitValue(c: char): nat
    requires IsDigit(c)
  {
    c as int - '0' as int
  }

  /** The value of a string of decimal digits, as `int(s)`. */
  function DigitsValue(s: string): nat
    requires forall k :: 0 <= k < |s| ==> IsDigit(s[k])
  {
    if s == [] then 0 else DigitsValue(s[..|s| - 1]) * 10 + DigitValue(s[|s| - 1])
  }

  lemma {:induction false} NatToStringRoundTrip(n: nat)
    ensures DigitsValue(NatToString(n)) == n
    decreases n
  {
    if n >= 10 {
      NatToStringRoundTrip(n / 10);
      assert NatToString(n)[..|NatToString(n)| - 1] == NatToString(n / 10);
    }
  }

  /** `question_{i + 1}.pdf`: the file of the question at position `i`, numbered from 1. */
  function QuestionFileName(i: nat): string {
    "question_" + NatToString(i + 1) + ".pdf"
  }

  /** Different questions go to different files. */
  lemma QuestionFileNamesDistinct(i: nat, j: nat)
    requires i != j
    ensures QuestionFileName(i) != QuestionFileName(j)
  {
    var a := NatToString(i + 1);
    var b := NatToString(j + 1);
    if QuestionFileName(i) == QuestionFileName(j) {
      assert |a| == |b|;
      assert a == QuestionFileName(i)[9..9 + |a|];
      assert b == QuestionFileName(j)[9..9 + |b|];
      NatToStringRoundTrip(i + 1);
      NatToStringRoundTrip(j + 1);
    }
  }

  // ------------------------------------------------------------ the split

  /** One output file: its name and the pages copied into it, in order. */
  datatype QuestionFile = QuestionFile(name: string, pages: seq<nat>)

  /** The page numbers `first .. last`. */
  function PageRange(first: nat, last: int): (r: seq<nat>)
    ensures |r| == if last < first then 0 else last - first + 1
    ensures forall k :: 0 <= k < |r| ==> r[k] == first + k
    decreases last - first
  {
    if last < first then [] else PageRange(first, last - 1) + [last]
  }

  /** The loop that adds a block's pages to a fresh writer. */
  method CollectPages(block: Block) returns (pages: seq<nat>)
    ensures pages == PageRange(block.first, block.last)
  {
    pages := [];
    var pageNum := block.first;
    while pageNum <= block.last
      invariant block.first <= pageNum <= if block.first <= block.last then block.last + 1 else block.first
      invariant pages == PageRange(block.first, pageNum - 1)
      decreases block.last - pageNum
    {
      pages := pages + [pageNum];
      pageNum := pageNum + 1;
    }
  }

  /** All the pages written, file after file. */
  function AllPages(files: seq<QuestionFile>): seq<nat> {
    if files == [] then [] else AllPages(files[..|files| - 1]) + files[|files| - 1].pages
  }

  lemma AllPagesAppend(files: seq<QuestionFile>, f: QuestionFile)
    ensures AllPages(files + [f]) == AllPages(files) + f.pages
  {
    assert (files + [f])[..|files|] == files;
  }

  /** Two adjacent ranges make one. */
  lemma {:induction false} PageRangeConcat(a: nat, b: nat, c: int)
    requires a <= b <= c
    ensures PageRange(a, b - 1) + PageRange(b, c) == PageRange(a, c)
  {
    var l := PageRange(a, b - 1) + PageRange(b, c);
    assert forall k :: 0 <= k < |l| ==> l[k] == a + k by {
      forall k | 0 <= k < |l| ensures l[k] == a + k {
        if k >= b - a {
          assert l[k] == PageRange(b, c)[k - (b - a)];
        }
      }
    }
  }

  /** The file of question `i`: its name and the pages of its block. */
  function FileOf(starts: seq<nat>, total: nat, i: nat): QuestionFile
    requires i < |starts|
  {
    QuestionFile(QuestionFileName(i), PageRange(BlockAt(starts, total, i).first, BlockAt(starts, total, i).last))
  }

  /** Appending the next question's file extends the pages written by its block. */
  lemma AllPagesStep(starts: seq<nat>, total: nat, files: seq<QuestionFile>, i: nat)
    requires ValidStarts(starts, total) && i < |starts| && |files| == i
    requires i > 0 ==> AllPages(files) == PageRange(starts[0], BlockAt(starts, total, i - 1).last)
    ensures AllPages(files + [FileOf(starts, total, i)]) ==
            PageRange(starts[0], BlockAt(starts, total, i).last)
  {
    BlockBounds(starts, total, i);
    AllPagesAppend(files, FileOf(starts, total, i));
    if i > 0 {
      BlockBounds(starts, total, i - 1);
      PageRangeConcat(starts[0], starts[i], BlockAt(starts, total, i).last);
    } else {
      assert AllPages(files) == [];
    }
  }

  /** The loop invariant of `WriteFiles` survives writing file `i`. */
  lemma WriteFilesStep(starts: seq<nat>, total: nat, files: seq<QuestionFile>, i: nat)
    requires ValidStarts(starts, total) && i < |starts| && |files| == i
    requires forall k :: 0 <= k < i ==> files[k] == FileOf(starts, total, k)
    requires i > 0 ==> AllPages(files) == PageRange(starts[0], BlockAt(starts, total, i - 1).last)
    ensures var next := files + [FileOf(starts, total, i)];
            (forall k :: 0 <= k <= i ==> next[k] == FileOf(starts, total, k)) &&
            AllPages(next) == PageRange(starts[0], BlockAt(starts, total, i).last)
  {
    var next := files + [FileOf(starts, total, i)];
    forall k | 0 <= k <= i ensures next[k] == FileOf(starts, total, k) {
      if k < i {
        assert next[k] == files[k];
      }
    }
    AllPagesStep(starts, total, files, i);
  }

  /**
   * The loop over the question starts: the end page of each question, its
   * pages copied in order, and its file name. Read one after the other, the
   * files hold every page from the first start to the last page, once each
   * and in order.
   */
  method WriteFiles(starts: seq<nat>, total: nat) returns (files: seq<QuestionFile>)
    requires ValidStarts(starts, total)
    ensures |files| == |starts|
    ensures forall i :: 0 <= i < |starts| ==> files[i] == FileOf(starts, total, i)
    ensures files == [] || AllPages(files) == PageRange(starts[0], total - 1)
  {
    files := [];
    for i := 0 to |starts|
      invariant |files| == i
      invariant forall k :: 0 <= k < i ==> files[k] == FileOf(starts, total, k)
      invariant i > 0 ==> AllPages(files) == PageRange(starts[0], BlockAt(starts, total, i - 1).last)
    {
      var endPage := if i + 1 < |starts| then starts[i + 1] - 1 else total - 1;
      var written := CollectPages(Block(starts[i], endPage));
      assert QuestionFile(QuestionFileName(i), written) == FileOf(starts, total, i);
      WriteFilesStep(starts, total, files, i);
      files := files + [QuestionFile(QuestionFileName(i), written)];
    }
    if |starts| > 0 {
      BlockBounds(starts, total, |starts| - 1);
    }
  }

  /**
   * `split_pdf_by_questions`: the question starts are exactly the pages that
   * open a question, in increasing order; there is one file per start, named
   * by its position and opening at its start page; and the files, read one
   * after the other, hold every page from the first start to the last page,
   * once each and in order. No page opens a question when no file is written.
   */
  method SplitPdfByQuestions(pages: seq<Option<string>>) returns (starts: seq<nat>, files: seq<QuestionFile>)
    ensures StrictlyIncreasing(starts)
    ensures forall i :: 0 <= i < |starts| ==> starts[i] < |pages| && IsStartPage(pages[starts[i]])
    ensures forall p :: 0 <= p < |pages| && IsStartPage(pages[p]) ==> p in starts
    ensures |files| == |starts|
    ensures forall i :: 0 <= i < |files| ==>
      files[i].name == QuestionFileName(i) && |files[i].pages| > 0 && files[i].pages[0] == starts[i]
    ensures files == [] || AllPages(files) == PageRange(starts[0], |pages| - 1)
  {
    starts := FindQuestionStarts(pages);
    files := WriteFiles(starts, |pages|);
    forall i | 0 <= i < |files|
      ensures files[i].name == QuestionFileName(i) && |files[i].pages| > 0 && files[i].pages[0] == starts[i]
    {
      BlockBounds(starts, |pages|, i);
    }
  }
}
