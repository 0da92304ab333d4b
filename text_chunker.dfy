/**
 * The text side of the ingestion function: page text normalisation, the
 * sentence-boundary chunker (splitText / findSplitIndex / isPunctuation) and
 * the assembly of the (page number, chunk) list from the per-page texts.
 *
 * Text is `seq<char>`; a Java `char` is taken to be one Dafny `char`.
 */
module TextChunker {
  import opened Model

  /** Upper bound on the length of one chunk (MAX_SEPARATE_TOKEN_LENGTH). */
  const MaxSeparateTokenLength: nat := 7500
  /** How far back from the bound the split scan looks for a sentence end. */
  const SplitWindow: nat := 300

  /** Sentence-ending marks, ASCII and full width: . 。 ; ； ! ！ ? ？ */
  predicate IsPunctuation(c: char) {
    c == '.' || c == '\U{3002}' || c == ';' || c == '\U{FF1B}' ||
    c == '!' || c == '\U{FF01}' || c == '?' || c == '\U{FF1F}'
  }

  // ---------------------------------------------------------------------------
  // The split point
  // ---------------------------------------------------------------------------

  /**
   * Where the backward scan of findSplitIndex stops when it starts at `i`:
   * the largest index in (start, i] holding a punctuation mark, or `start`
   * when there is none.
   */
  function ScanBack(text: string, start: nat, i: nat): (r: nat)
    requires start <= i < |text|
    ensures start <= r <= i
    ensures r > start ==> IsPunctuation(text[r])
    ensures forall j :: r < j <= i ==> !IsPunctuation(text[j])
    decreases i - start
  {
    if i == start || IsPunctuation(text[i]) then i else ScanBack(text, start, i - 1)
  }

  /**
   * The split index findSplitIndex returns: the scan result, or `maxLength`
   * when the scan reached index 0.
   */
  function SplitPoint(text: string, maxLength: nat): (r: nat)
    requires SplitWindow <= maxLength < |text|
    ensures maxLength - SplitWindow <= r <= maxLength
    ensures r > 0
  {
    var i := ScanBack(text, maxLength - SplitWindow, maxLength);
    if i == 0 then maxLength else i
  }

  /**
   * With the bound above the window, the split index is the largest
   * punctuation position in (maxLength - 300, maxLength], or exactly
   * maxLength - 300 when that range holds none; the fallback for a scan that
   * reaches index 0 never applies.
   */
  lemma SplitPointIsLastPunctuation(text: string, maxLength: nat)
    requires SplitWindow < maxLength < |text|
    ensures ScanBack(text, maxLength - SplitWindow, maxLength) != 0
    ensures IsLastPunctuationInWindow(text, maxLength, SplitPoint(text, maxLength))
  {
  }

  /**
   * `r` is the largest index in (maxLength - 300, maxLength] holding a
   * punctuation mark, or maxLength - 300 exactly when there is none.
   */
  ghost predicate IsLastPunctuationInWindow(text: string, maxLength: nat, r: nat)
    requires SplitWindow <= maxLength < |text|
  {
    && maxLength - SplitWindow <= r <= maxLength
    && (r > maxLength - SplitWindow ==> IsPunctuation(text[r]))
    && (forall j :: r < j <= maxLength ==> !IsPunctuation(text[j]))
    && (r == maxLength - SplitWindow <==>
          forall j :: maxLength - SplitWindow < j <= maxLength ==> !IsPunctuation(text[j]))
  }

  /** findSplitIndex: scan backwards from maxLength for a punctuation mark. */
  method FindSplitIndex(text: string, maxLength: nat) returns (splitIndex: nat)
    requires SplitWindow <= maxLength < |text|
    ensures splitIndex == SplitPoint(text, maxLength)
  {
    var start := maxLength - SplitWindow;
    splitIndex := maxLength;
    while splitIndex > start
      invariant start <= splitIndex <= maxLength
      invariant ScanBack(text, start, splitIndex) == ScanBack(text, start, maxLength)
      decreases splitIndex
    {
      var c := text[splitIndex];
      if IsPunctuation(c) {
        break;
      }
      splitIndex := splitIndex - 1;
    }
    if splitIndex == 0 {
      splitIndex := maxLength;
    }
  }

  // ---------------------------------------------------------------------------
  // Chunks
  // ---------------------------------------------------------------------------

  /** The chunks splitText produces: cut at the split point until the rest fits. */
  function Chunks(text: string, maxLength: nat): seq<string>
    requires SplitWindow <= maxLength
    decreases |text|
  {
    if |text| <= maxLength then [text]
    else
      var k := SplitPoint(text, maxLength);
      [text[..k]] + Chunks(text[k..], maxLength)
  }

  /** The concatenation of a list of strings, in order. */
  function Concat(parts: seq<string>): string {
    if parts == [] then [] else parts[0] + Concat(parts[1..])
  }

  lemma {:induction false} ConcatAppend(a: seq<string>, b: seq<string>)
    ensures Concat(a + b) == Concat(a) + Concat(b)
  {
    if a == [] {
      assert a + b == b;
    } else {
      assert (a + b)[1..] == a[1..] + b;
      ConcatAppend(a[1..], b);
    }
  }

  /** splitText loses and reorders nothing: the chunks put back together are the text. */
  lemma {:induction false} ChunksConcat(text: string, maxLength: nat)
    requires SplitWindow <= maxLength
    ensures Concat(Chunks(text, maxLength)) == text
    decreases |text|
  {
    if |text| > maxLength {
      var k := SplitPoint(text, maxLength);
      var rest := Chunks(text[k..], maxLength);
      assert ([text[..k]] + rest)[1..] == rest;
      ChunksConcat(text[k..], maxLength);
      assert text[..k] + text[k..] == text;
    }
  }

  ghost predicate WellSized(text: string, maxLength: nat, r: seq<string>)
    requires SplitWindow <= maxLength
  {
    && |r| >= 1
    && (|text| <= maxLength ==> r == [text])
    && (|text| > maxLength ==> |r| >= 2)
    && (forall i :: 0 <= i < |r| - 1 ==> maxLength - SplitWindow <= |r[i]| <= maxLength)
    && |r[|r| - 1]| <= maxLength
    && (|r[|r| - 1]| == 0 <==> |text| == 0)
  }

  /**
   * Chunk lengths: a text that fits is one chunk equal to the text; a longer
   * text gives at least two chunks, every chunk but the last holds between
   * maxLength - 300 and maxLength characters, and the last holds at most
   * maxLength and is empty only when the text is.
   */
  lemma {:induction false} ChunksLengths(text: string, maxLength: nat)
    requires SplitWindow <= maxLength
    ensures WellSized(text, maxLength, Chunks(text, maxLength))
    decreases |text|
  {
    if |text| > maxLength {
      var k := SplitPoint(text, maxLength);
      ChunksLengths(text[k..], maxLength);
      var rest := Chunks(text[k..], maxLength);
      var r := Chunks(text, maxLength);
      assert r == [text[..k]] + rest;
      assert forall i :: 1 <= i < |r| ==> r[i] == rest[i - 1];
    }
  }

  /** The first chunk of a non-empty text starts with the text's first character. */
  lemma {:induction false} ChunksHead(text: string, maxLength: nat)
    requires SplitWindow <= maxLength
    requires |text| > 0
    ensures |Chunks(text, maxLength)[0]| > 0 && Chunks(text, maxLength)[0][0] == text[0]
  {
  }

  ghost predicate CutsAtPunctuation(maxLength: nat, r: seq<string>)
    requires SplitWindow <= maxLength
  {
    forall i :: 1 <= i < |r| ==>
      |r[i]| > 0 && (IsPunctuation(r[i][0]) || |r[i - 1]| == maxLength - SplitWindow)
  }

  /**
   * Where each cut falls: every chunk after the first begins with a
   * punctuation mark (the mark the cut was made at, which the chunk before
   * leaves out) unless the chunk before it is exactly maxLength - 300 long,
   * the cut made when the window held no punctuation.
   */
  lemma {:induction false} ChunkBoundaries(text: string, maxLength: nat)
    requires SplitWindow < maxLength
    ensures CutsAtPunctuation(maxLength, Chunks(text, maxLength))
    decreases |text|
  {
    if |text| > maxLength {
      var k := SplitPoint(text, maxLength);
      var rest := Chunks(text[k..], maxLength);
      var r := Chunks(text, maxLength);
      assert r == [text[..k]] + rest;
      ChunkBoundaries(text[k..], maxLength);
      forall i | 1 <= i < |r|
        ensures |r[i]| > 0 && (IsPunctuation(r[i][0]) || |r[i - 1]| == maxLength - SplitWindow)
      {
        if i == 1 {
          ChunksHead(text[k..], maxLength);
          SplitPointIsLastPunctuation(text, maxLength);
          assert r[1] == rest[0] && r[0] == text[..k];
        } else {
          assert r[i] == rest[i - 1] && r[i - 1] == rest[i - 2];
        }
      }
    }
  }

  /** splitText: cut the text at split points while it is longer than maxLength. */
  method SplitText(text: string, maxLength: nat) returns (chunks: seq<string>)
    requires SplitWindow <= maxLength
    ensures chunks == Chunks(text, maxLength)
  {
    chunks := [];
    var rest := text;
    var textLength := |rest|;
    while textLength > maxLength
      invariant textLength == |rest|
      invariant chunks + Chunks(rest, maxLength) == Chunks(text, maxLength)
      decreases textLength
    {
      var splitIndex := FindSplitIndex(rest, maxLength);
      assert Chunks(rest, maxLength) == [rest[..splitIndex]] + Chunks(rest[splitIndex..], maxLength);
      chunks := chunks + [rest[..splitIndex]];
      rest := rest[splitIndex..];
      textLength := |rest|;
    }
    chunks := chunks + [rest];
  }

  // ---------------------------------------------------------------------------
  // Page text normalisation
  // ---------------------------------------------------------------------------

  /** The characters the regular expression class \s matches. */
  predicate IsWhitespace(c: char) {
    c == ' ' || c == '\t' || c == '\n' || c == '\U{000B}' || c == '\U{000C}' || c == '\r'
  }

  /** replace("\n", " "): every line feed becomes a space. */
  function ReplaceNewlines(s: string): string {
    seq(|s|, i requires 0 <= i < |s| => if s[i] == '\n' then ' ' else s[i])
  }

  /** Length of the run of whitespace the string starts with. */
  function WhitespaceRun(s: string): (n: nat)
    ensures n <= |s|
    ensures forall j :: 0 <= j < n ==> IsWhitespace(s[j])
    ensures n < |s| ==> !IsWhitespace(s[n])
  {
    if s == [] || !IsWhitespace(s[0]) then 0 else 1 + WhitespaceRun(s[1..])
  }

  /**
   * replaceAll("\\s{2,}", " "): scanning left to right, every maximal run of
   * two or more whitespace characters becomes one space; a lone whitespace
   * character stays as it is.
   */
  function CollapseWhitespace(s: string): string
    decreases |s|
  {
    if s == [] then []
    else
      var n := WhitespaceRun(s);
      if n >= 2 then [' '] + CollapseWhitespace(s[n..])
      else [s[0]] + CollapseWhitespace(s[1..])
  }

  /** The normalisation applied to each page's text before it is chunked. */
  function NormalizePageText(s: string): string {
    CollapseWhitespace(ReplaceNewlines(s))
  }

  /** No two neighbouring characters are both whitespace. */
  ghost predicate NoAdjacentWhitespace(s: string) {
    forall i :: 0 <= i < |s| - 1 ==> !(IsWhitespace(s[i]) && IsWhitespace(s[i + 1]))
  }

  /** The non-whitespace characters of a string, in order. */
  function NonWhitespace(s: string): string {
    if s == [] then [] else (if IsWhitespace(s[0]) then [] else [s[0]]) + NonWhitespace(s[1..])
  }

  lemma {:induction false} CollapseHead(s: string)
    ensures |CollapseWhitespace(s)| == 0 <==> |s| == 0
    ensures |s| > 0 && !IsWhitespace(s[0]) ==> CollapseWhitespace(s)[0] == s[0]
  {
  }

  lemma {:induction false} NonWhitespaceSkipsRun(s: string, n: nat)
    requires n <= WhitespaceRun(s)
    ensures NonWhitespace(s) == NonWhitespace(s[n..])
    decreases n
  {
    if n > 0 {
      assert s[1..][n - 1..] == s[n..];
      NonWhitespaceSkipsRun(s[1..], n - 1);
    }
  }

  /** After a collapse, no two whitespace characters are neighbours. */
  lemma {:induction false} CollapseNoAdjacentWhitespace(s: string)
    ensures NoAdjacentWhitespace(CollapseWhitespace(s))
    decreases |s|
  {
    if s != [] {
      var n := WhitespaceRun(s);
      var m := if n >= 2 then n else 1;
      var tail := s[m..];
      CollapseNoAdjacentWhitespace(tail);
      CollapseHead(tail);
      var rt := CollapseWhitespace(tail);
      var h := if n >= 2 then ' ' else s[0];
      var r := CollapseWhitespace(s);
      assert r == [h] + rt;
      if IsWhitespace(h) && |rt| > 0 {
        assert n >= 1;
        assert m < |s| ==> !IsWhitespace(s[m]);
        assert tail[0] == s[m];
      }
      forall i | 0 <= i < |r| - 1 ensures !(IsWhitespace(r[i]) && IsWhitespace(r[i + 1])) {
        if i > 0 {
          assert r[i] == rt[i - 1] && r[i + 1] == rt[i];
        }
      }
    }
  }

  /** A collapse keeps every non-whitespace character, in order. */
  lemma {:induction false} CollapseKeepsNonWhitespace(s: string)
    ensures NonWhitespace(CollapseWhitespace(s)) == NonWhitespace(s)
    decreases |s|
  {
    if s != [] {
      var n := WhitespaceRun(s);
      var m := if n >= 2 then n else 1;
      var tail := s[m..];
      CollapseKeepsNonWhitespace(tail);
      var rt := CollapseWhitespace(tail);
      var h := if n >= 2 then ' ' else s[0];
      assert CollapseWhitespace(s) == [h] + rt;
      assert ([h] + rt)[1..] == rt;
      if n >= 2 {
        NonWhitespaceSkipsRun(s, n);
      }
    }
  }

  /**
   * A collapse never lengthens the text and brings in no character other
   * than a space.
   */
  lemma {:induction false} CollapseShortens(s: string)
    ensures |CollapseWhitespace(s)| <= |s|
    ensures forall i :: 0 <= i < |CollapseWhitespace(s)| ==>
      CollapseWhitespace(s)[i] == ' ' || CollapseWhitespace(s)[i] in s
    decreases |s|
  {
    if s != [] {
      var n := WhitespaceRun(s);
      var m := if n >= 2 then n else 1;
      var tail := s[m..];
      CollapseShortens(tail);
      var rt := CollapseWhitespace(tail);
      var h := if n >= 2 then ' ' else s[0];
      var r := CollapseWhitespace(s);
      assert r == [h] + rt;
      forall i | 0 <= i < |r| ensures r[i] == ' ' || r[i] in s {
        if i > 0 {
          assert r[i] == rt[i - 1];
          assert rt[i - 1] == ' ' || rt[i - 1] in tail;
        }
      }
    }
  }

  /** Normalising twice gives the same text as normalising once. */
  lemma {:induction false} CollapseFixpoint(s: string)
    requires NoAdjacentWhitespace(s)
    requires forall i :: 0 <= i < |s| ==> s[i] != '\n'
    ensures CollapseWhitespace(s) == s
    ensures ReplaceNewlines(s) == s
    decreases |s|
  {
    if s != [] {
      assert WhitespaceRun(s) <= 1 by {
        if |s| >= 2 && IsWhitespace(s[0]) {
          assert !IsWhitespace(s[1]);
        }
      }
      CollapseFixpoint(s[1..]);
      assert [s[0]] + s[1..] == s;
    }
  }

  /**
   * The page text that is chunked holds no line feed and no two adjacent
   * whitespace characters, keeps the non-whitespace characters of the raw
   * text in order, is no longer than the raw text, and is left as it is by a
   * second normalisation.
   */
  lemma NormalizePageTextSpec(raw: string)
    ensures forall i :: 0 <= i < |NormalizePageText(raw)| ==> NormalizePageText(raw)[i] != '\n'
    ensures NoAdjacentWhitespace(NormalizePageText(raw))
    ensures NonWhitespace(NormalizePageText(raw)) == NonWhitespace(raw)
    ensures |NormalizePageText(raw)| <= |raw|
    ensures NormalizePageText(NormalizePageText(raw)) == NormalizePageText(raw)
  {
    var s := ReplaceNewlines(raw);
    CollapseNoAdjacentWhitespace(s);
    CollapseKeepsNonWhitespace(s);
    CollapseShortens(s);
    var r := CollapseWhitespace(s);
    assert forall i :: 0 <= i < |r| ==> r[i] != '\n' by {
      forall i | 0 <= i < |r| ensures r[i] != '\n' {
        if r[i] != ' ' {
          var j :| 0 <= j < |s| && s[j] == r[i];
        }
      }
    }
    NonWhitespaceReplace(raw);
    CollapseFixpoint(r);
  }

  lemma {:induction false} NonWhitespaceReplace(s: string)
    ensures NonWhitespace(ReplaceNewlines(s)) == NonWhitespace(s)
    decreases |s|
  {
    if s != [] {
      assert ReplaceNewlines(s)[1..] == ReplaceNewlines(s[1..]);
      NonWhitespaceReplace(s[1..]);
    }
  }

  // ---------------------------------------------------------------------------
  // Page list assembly
  // ---------------------------------------------------------------------------

  /** One chunk of one page: PageInfo(pageNumber, text). */
  datatype PageInfo = PageInfo(pageNumber: int, text: string)

  /** The chunks of a page, each tagged with the page's number. */
  function Tag(pageNumber: int, chunks: seq<string>): seq<PageInfo> {
    seq(|chunks|, i requires 0 <= i < |chunks| => PageInfo(pageNumber, chunks[i]))
  }

  /**
   * What one page contributes: nothing when its text could not be extracted,
   * otherwise its normalised text split into chunks.
   */
  function PageEntries(pageNumber: int, page: Option<string>): seq<PageInfo> {
    match page
    case None => []
    case Some(raw) => Tag(pageNumber, Chunks(NormalizePageText(raw), MaxSeparateTokenLength))
  }

  /** The entries each page contributes, in page order: page i + 1's at index i. */
  function PageEntryLists(pages: seq<Option<string>>): seq<seq<PageInfo>> {
    seq(|pages|, i requires 0 <= i < |pages| => PageEntries(i + 1, pages[i]))
  }

  /** Per-page lists 1..n joined in page order. */
  function Assemble(lists: seq<seq<PageInfo>>, n: nat): seq<PageInfo>
    requires n <= |lists|
  {
    if n == 0 then [] else Assemble(lists, n - 1) + lists[n - 1]
  }

  /** The entries of pages 1..n, in page order. */
  function ExtractedPages(pages: seq<Option<string>>, n: nat): seq<PageInfo>
    requires n <= |pages|
  {
    Assemble(PageEntryLists(pages), n)
  }

  /** The list extractPDFtoTextByPage returns for a document (None: it could not be loaded). */
  function ExtractedDocument(document: Option<seq<Option<string>>>): seq<PageInfo> {
    match document
    case None => []
    case Some(pages) => ExtractedPages(pages, |pages|)
  }

  /**
   * extractPDFtoTextByPage over the texts the PDF library yields for pages
   * 1..n (None for a page whose text could not be read). A page whose
   * normalised text exceeds the bound is split; others give one entry.
   */
  method ExtractPDFtoTextByPage(document: Option<seq<Option<string>>>) returns (allPages: seq<PageInfo>)
    ensures allPages == ExtractedDocument(document)
  {
    allPages := [];
    if document.None? {
      return;
    }
    var pages := document.value;
    var pageNumber := 1;
    while pageNumber <= |pages|
      invariant 1 <= pageNumber <= |pages| + 1
      invariant allPages == ExtractedPages(pages, pageNumber - 1)
      decreases |pages| + 1 - pageNumber
    {
      ExtractedPagesStep(pages, pageNumber);
      match pages[pageNumber - 1] {
        case None =>
          assert PageEntries(pageNumber, None) == [];
          allPages := allPages + [];
        case Some(raw) =>
          var entries := PageText(pageNumber, raw);
          allPages := allPages + entries;
      }
      pageNumber := pageNumber + 1;
    }
  }

  /** One read page's entries: its normalised text, split when it exceeds the bound. */
  method PageText(pageNumber: int, raw: string) returns (entries: seq<PageInfo>)
    ensures entries == PageEntries(pageNumber, Some(raw))
  {
    var pageText := NormalizePageText(raw);
    if |pageText| > MaxSeparateTokenLength {
      var split := SplitText(pageText, MaxSeparateTokenLength);
      entries := [];
      var i := 0;
      while i < |split|
        invariant 0 <= i <= |split|
        invariant entries == Tag(pageNumber, split[..i])
      {
        assert Tag(pageNumber, split[..i + 1]) == Tag(pageNumber, split[..i]) + [PageInfo(pageNumber, split[i])];
        entries := entries + [PageInfo(pageNumber, split[i])];
        i := i + 1;
      }
      assert split[..i] == split;
    } else {
      ShortPageIsOneEntry(pageNumber, raw);
      entries := [PageInfo(pageNumber, pageText)];
    }
  }

  lemma ExtractedPagesStep(pages: seq<Option<string>>, n: nat)
    requires 1 <= n <= |pages|
    ensures ExtractedPages(pages, n) == ExtractedPages(pages, n - 1) + PageEntries(n, pages[n - 1])
  {
    var lists := PageEntryLists(pages);
    assert ExtractedPages(pages, n) == Assemble(lists, n) == Assemble(lists, n - 1) + lists[n - 1];
    assert ExtractedPages(pages, n - 1) == Assemble(lists, n - 1);
    assert lists[n - 1] == PageEntries(n, pages[n - 1]);
  }

  /** A page whose normalised text fits the bound gives one entry with that text. */
  lemma ShortPageIsOneEntry(pageNumber: int, raw: string)
    requires |NormalizePageText(raw)| <= MaxSeparateTokenLength
    ensures PageEntries(pageNumber, Some(raw)) == [PageInfo(pageNumber, NormalizePageText(raw))]
  {
    ChunksLengths(NormalizePageText(raw), MaxSeparateTokenLength);
  }

  /** The entries of a list that belong to page p, in list order. */
  function OnPage(entries: seq<PageInfo>, p: int): seq<PageInfo> {
    if entries == [] then []
    else
      var last := entries[|entries| - 1];
      OnPage(entries[..|entries| - 1], p) + (if last.pageNumber == p then [last] else [])
  }

  /** Every entry a page contributes carries its number, fits the bound, and exists only if the page was read. */
  lemma PageEntriesFacts(pageNumber: int, page: Option<string>)
    ensures |PageEntries(pageNumber, page)| > 0 ==> page.Some?
    ensures forall e <- PageEntries(pageNumber, page) ::
      e.pageNumber == pageNumber && |e.text| <= MaxSeparateTokenLength
  {
    if page.Some? {
      ChunksLengths(NormalizePageText(page.value), MaxSeparateTokenLength);
    }
  }

  /** Page numbers never decrease along the list. */
  ghost predicate PageOrdered(e: seq<PageInfo>) {
    forall i, j :: 0 <= i < j < |e| ==> e[i].pageNumber <= e[j].pageNumber
  }

  /** Each list holds entries of its own page only. */
  ghost predicate TaggedByPage(lists: seq<seq<PageInfo>>) {
    forall i :: 0 <= i < |lists| ==> OnePage(lists[i], i + 1)
  }

  /** Every entry of the list belongs to page q. */
  ghost predicate OnePage(entries: seq<PageInfo>, q: int) {
    forall j :: 0 <= j < |entries| ==> entries[j].pageNumber == q
  }

  /** Joining page-tagged lists gives a page-ordered list whose entries come from the page they name. */
  lemma {:induction false} AssembleOrdered(lists: seq<seq<PageInfo>>, n: nat)
    requires n <= |lists| && TaggedByPage(lists)
    ensures PageOrdered(Assemble(lists, n))
    ensures forall j :: 0 <= j < |Assemble(lists, n)| ==> Assemble(lists, n)[j].pageNumber <= n
    decreases n
  {
    if n > 0 {
      var prev := Assemble(lists, n - 1);
      var last := lists[n - 1];
      assert Assemble(lists, n) == prev + last;
      assert OnePage(last, n);
      AssembleOrdered(lists, n - 1);
      PageOrderedSnoc(prev, last, n);
    }
  }

  /** Every entry of the joined lists comes from one of them. */
  lemma {:induction false} AssembleMembers(lists: seq<seq<PageInfo>>, n: nat)
    requires n <= |lists|
    ensures forall e <- Assemble(lists, n) :: exists i :: 0 <= i < n && e in lists[i]
    decreases n
  {
    if n > 0 {
      AssembleMembers(lists, n - 1);
      assert Assemble(lists, n) == Assemble(lists, n - 1) + lists[n - 1];
    }
  }

  /** Appending entries of one page k to an ordered list of pages up to k keeps it ordered. */
  lemma PageOrderedSnoc(a: seq<PageInfo>, b: seq<PageInfo>, k: int)
    requires PageOrdered(a)
    requires forall j :: 0 <= j < |a| ==> a[j].pageNumber <= k
    requires OnePage(b, k)
    ensures PageOrdered(a + b)
  {
    var e := a + b;
    forall i, j | 0 <= i < j < |e| ensures e[i].pageNumber <= e[j].pageNumber {
      if j < |a| {
        assert e[i] == a[i] && e[j] == a[j];
      } else if i < |a| {
        assert e[i] == a[i] && e[j] == b[j - |a|];
      } else {
        assert e[i] == b[i - |a|] && e[j] == b[j - |a|];
      }
    }
  }

  /** Selecting page p from joined page-tagged lists gives back page p's own list. */
  lemma {:induction false} AssemblePerPage(lists: seq<seq<PageInfo>>, n: nat, p: int)
    requires n <= |lists| && TaggedByPage(lists)
    requires 1 <= p <= n
    ensures OnPage(Assemble(lists, n), p) == lists[p - 1]
    decreases n
  {
    var prev := Assemble(lists, n - 1);
    var last := lists[n - 1];
    assert Assemble(lists, n) == prev + last;
    assert OnePage(last, n);
    OnPageSnoc(prev, last, p, n);
    if p == n {
      AssembleBefore(lists, n - 1, p);
      assert OnPage(Assemble(lists, n), p) == [] + last;
    } else {
      AssemblePerPage(lists, n - 1, p);
      assert OnPage(Assemble(lists, n), p) == lists[p - 1] + [];
    }
  }

  /** Joined page-tagged lists of pages 1..n hold nothing of a later page. */
  lemma {:induction false} AssembleBefore(lists: seq<seq<PageInfo>>, n: nat, p: int)
    requires n <= |lists| && TaggedByPage(lists)
    requires p > n
    ensures OnPage(Assemble(lists, n), p) == []
    decreases n
  {
    if n > 0 {
      var prev := Assemble(lists, n - 1);
      var last := lists[n - 1];
      assert Assemble(lists, n) == prev + last;
      assert OnePage(last, n);
      OnPageSnoc(prev, last, p, n);
      AssembleBefore(lists, n - 1, p);
      assert OnPage(Assemble(lists, n), p) == [] + [];
    }
  }

  /** Entries of one page q appended to a list add themselves to page q's selection and nothing elsewhere. */
  lemma {:induction false} OnPageSnoc(prev: seq<PageInfo>, last: seq<PageInfo>, p: int, q: int)
    requires OnePage(last, q)
    ensures OnPage(prev + last, p) == OnPage(prev, p) + (if p == q then last else [])
    decreases |last|
  {
    if last == [] {
      assert prev + last == prev;
    } else {
      var init := last[..|last| - 1];
      assert (prev + last)[..|prev + last| - 1] == prev + init;
      assert OnePage(init, q);
      OnPageSnoc(prev, init, p, q);
      if p == q {
        assert init + [last[|last| - 1]] == last;
      }
    }
  }

  lemma PageEntryListsTagged(pages: seq<Option<string>>)
    ensures TaggedByPage(PageEntryLists(pages))
  {
    PageEntryListsFacts(pages);
  }

  /** The per-page lists are tagged with their page, come from a page that was read, and fit the bound. */
  lemma PageEntryListsFacts(pages: seq<Option<string>>)
    ensures TaggedByPage(PageEntryLists(pages))
    ensures forall i, e :: 0 <= i < |pages| && e in PageEntryLists(pages)[i] ==>
      e.pageNumber == i + 1 && pages[i].Some? && |e.text| <= MaxSeparateTokenLength
  {
    forall i, e | 0 <= i < |pages| && e in PageEntryLists(pages)[i]
      ensures e.pageNumber == i + 1 && pages[i].Some? && |e.text| <= MaxSeparateTokenLength
    {
      PageEntriesFacts(i + 1, pages[i]);
    }
  }

  /**
   * Order of the assembled list: page numbers never decrease along it, each
   * lies in 1..n and names a page whose text was extracted, and no entry is
   * longer than the chunk bound.
   */
  lemma ExtractedPagesOrdered(pages: seq<Option<string>>, n: nat)
    requires n <= |pages|
    ensures PageOrdered(ExtractedPages(pages, n))
    ensures forall e <- ExtractedPages(pages, n) ::
      1 <= e.pageNumber <= n && pages[e.pageNumber - 1].Some? && |e.text| <= MaxSeparateTokenLength
  {
    PageEntryListsFacts(pages);
    AssembleOrdered(PageEntryLists(pages), n);
    AssembleMembers(PageEntryLists(pages), n);
  }

  /**
   * Per page: the entries tagged with page p are exactly that page's chunks
   * in split order; a page whose extraction failed has none, and the pages
   * around it keep theirs.
   */
  lemma ExtractedPagesPerPage(pages: seq<Option<string>>, n: nat, p: int)
    requires n <= |pages|
    requires 1 <= p <= n
    ensures OnPage(ExtractedPages(pages, n), p) == PageEntries(p, pages[p - 1])
  {
    var lists := PageEntryLists(pages);
    assert ExtractedPages(pages, n) == Assemble(lists, n);
    assert lists[p - 1] == PageEntries(p, pages[p - 1]);
    PageEntryListsTagged(pages);
    AssemblePerPage(lists, n, p);
  }

  /**
   * The texts of the entries tagged with page p, put back together, are the
   * page's normalised text (empty when the page could not be read).
   */
  lemma PageTextRecovered(pages: seq<Option<string>>, p: int)
    requires 1 <= p <= |pages|
    ensures Concat(Texts(OnPage(ExtractedDocument(Some(pages)), p))) ==
      match pages[p - 1]
      case None => []
      case Some(raw) => NormalizePageText(raw)
  {
    ExtractedPagesPerPage(pages, |pages|, p);
    if pages[p - 1].Some? {
      var chunks := Chunks(NormalizePageText(pages[p - 1].value), MaxSeparateTokenLength);
      assert Texts(Tag(p, chunks)) == chunks;
      ChunksConcat(NormalizePageText(pages[p - 1].value), MaxSeparateTokenLength);
    }
  }

  /** The texts of a list of entries, in order. */
  function Texts(entries: seq<PageInfo>): seq<string> {
    seq(|entries|, i requires 0 <= i < |entries| => entries[i].text)
  }
}
