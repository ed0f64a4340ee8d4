/**
 SEARCH/REPLACE patches: what the patch pattern matches, exactly when a printed patch parses back
 to its blocks, and when a patch can be undone.
 */
module Patches {
  import opened Wrappers

  datatype Block = Block(search: string, replace: string)

  datatype PatchError = NoBlocks | NotFound | Ambiguous

  const HEADER: string := "<<<<<<< SEARCH\n"
  const DIVIDER: string := "\n=======\n"
  const FOOTER: string := "\n>>>>>>> REPLACE"

  // Occurrences

  predicate Occurs(text: string, needle: string, i: nat) {
    i + |needle| <= |text| && text[i..i + |needle|] == needle
  }

  ghost predicate Contains(text: string, needle: string) {
    exists i: nat :: Occurs(text, needle, i)
  }

  /** `text.find(needle, start)`. */
  function Find(text: string, needle: string, start: nat): (r: Option<nat>)
    ensures r.Some? ==> start <= r.value && Occurs(text, needle, r.value)
    ensures forall i: nat :: start <= i && (r.Some? ==> i < r.value) ==> !Occurs(text, needle, i)
    decreases |text| - start
  {
    if start + |needle| > |text| then None
    else if text[start..start + |needle|] == needle then Some(start)
    else Find(text, needle, start + 1)
  }

  /** The index of the only occurrence, or what is wrong with the needle. */
  function UniqueSearchMatch(source: string, needle: string): (r: Result<nat, PatchError>)
    ensures r.Ok? ==> Occurs(source, needle, r.value) && forall i: nat :: Occurs(source, needle, i) ==> i == r.value
    ensures r == Err(NotFound) <==> !Contains(source, needle)
    ensures r == Err(Ambiguous) <==> exists i: nat, j: nat :: i < j && Occurs(source, needle, i) && Occurs(source, needle, j)
    ensures r.Err? ==> r.error != NoBlocks
  {
    var first := Find(source, needle, 0);
    if first.None? then Err(NotFound)
    else if Find(source, needle, first.value + 1).Some? then Err(Ambiguous)
    else Ok(first.value)
  }

  // The pattern

  function BuildPatch(search: string, replace: string): string {
    HEADER + search + DIVIDER + replace + FOOTER
  }

  /** The pattern matches `text` at `p` with these groups. */
  predicate MatchesAt(text: string, p: nat, block: Block) {
    Occurs(text, BuildPatch(block.search, block.replace), p)
  }

  /** A match: where it starts, its groups, and where it ends. */
  datatype Hit = Hit(start: nat, block: Block, end: nat)

  /** What a search for the pattern finds: the first place, its shortest search, its shortest replacement. */
  ghost predicate IsFirstMatch(text: string, hit: Hit) {
    && MatchesAt(text, hit.start, hit.block)
    && hit.end == hit.start + |BuildPatch(hit.block.search, hit.block.replace)|
    && forall p: nat, b: Block :: MatchesAt(text, p, b) ==>
         || p > hit.start
         || (p == hit.start
             && (|b.search| > |hit.block.search| || (b.search == hit.block.search && |b.replace| >= |hit.block.replace|)))
  }

  /** One left-to-right scan for the three markers. */
  function Scan(text: string): (r: Option<Hit>)
    ensures r.Some? ==> r.value.start < r.value.end <= |text|
  {
    var h := Find(text, HEADER, 0);
    if h.None? then None
    else
      var d := Find(text, DIVIDER, h.value + |HEADER|);
      if d.None? then None
      else
        var f := Find(text, FOOTER, d.value + |DIVIDER|);
        if f.None? then None
        else Some(Hit(h.value, Block(text[h.value + |HEADER|..d.value], text[d.value + |DIVIDER|..f.value]), f.value + |FOOTER|))
  }

  lemma OccursSplit(text: string, a: string, b: string, i: nat)
    ensures Occurs(text, a + b, i) <==> Occurs(text, a, i) && Occurs(text, b, i + |a|)
  {
    if i + |a| + |b| <= |text| {
      var whole := text[i..i + |a| + |b|];
      assert whole == text[i..i + |a|] + text[i + |a|..i + |a| + |b|];
      assert whole[..|a|] == text[i..i + |a|] && whole[|a|..] == text[i + |a|..i + |a| + |b|];
    }
  }

  predicate Markers(text: string, p: nat, b: Block) {
    var d := p + |HEADER| + |b.search|;
    var f := d + |DIVIDER| + |b.replace|;
    && Occurs(text, HEADER, p) && Occurs(text, DIVIDER, d) && Occurs(text, FOOTER, f)
    && Occurs(text, b.search, p + |HEADER|) && Occurs(text, b.replace, d + |DIVIDER|)
  }

  /** A match of the pattern is its three markers around its groups. */
  lemma MatchMarkers(text: string, p: nat, b: Block)
    ensures MatchesAt(text, p, b) <==> Markers(text, p, b)
  {
    OccursSplit(text, HEADER + b.search + DIVIDER + b.replace, FOOTER, p);
    OccursSplit(text, HEADER + b.search + DIVIDER, b.replace, p);
    OccursSplit(text, HEADER + b.search, DIVIDER, p);
    OccursSplit(text, HEADER, b.search, p);
  }

  lemma ScanMarkers(text: string, hit: Hit)
    requires Scan(text) == Some(hit)
    ensures Markers(text, hit.start, hit.block)
    ensures hit.end == hit.start + |HEADER| + |hit.block.search| + |DIVIDER| + |hit.block.replace| + |FOOTER|
  {
  }

  lemma NothingScanned(text: string, p: nat, b: Block)
    requires Scan(text).None?
    ensures !Markers(text, p, b)
  {
  }

  lemma ScannedIsFirst(text: string, hit: Hit)
    requires Scan(text) == Some(hit)
    ensures IsFirstMatch(text, hit)
  {
    ScanMarkers(text, hit);
    MatchMarkers(text, hit.start, hit.block);
    forall p: nat, b: Block | MatchesAt(text, p, b)
      ensures p > hit.start || (p == hit.start
              && (|b.search| > |hit.block.search| || (b.search == hit.block.search && |b.replace| >= |hit.block.replace|)))
    {
      MatchMarkers(text, p, b);
      NoEarlierMatch(text, p, b, hit);
    }
  }

  /** The scan finds exactly what the pattern matches first, and nothing only if nothing matches. */
  lemma ScanIsTheFirstMatch(text: string)
    ensures Scan(text).Some? ==> IsFirstMatch(text, Scan(text).value)
    ensures Scan(text).None? ==> forall p: nat, b: Block :: !MatchesAt(text, p, b)
  {
    if Scan(text).Some? {
      ScannedIsFirst(text, Scan(text).value);
    } else {
      forall p: nat, b: Block ensures !MatchesAt(text, p, b) {
        MatchMarkers(text, p, b);
        NothingScanned(text, p, b);
      }
    }
  }

  lemma NoEarlierMatch(text: string, p: nat, b: Block, hit: Hit)
    requires Scan(text) == Some(hit)
    requires Markers(text, p, b)
    ensures p > hit.start || (p == hit.start
            && (|b.search| > |hit.block.search| || (b.search == hit.block.search && |b.replace| >= |hit.block.replace|)))
  {
  }

  // Parsing

  /** All matches, each search resuming where the last one ended. */
  function Blocks(text: string): seq<Block>
    decreases |text|
  {
    var hit := Scan(text);
    if hit.None? then [] else [hit.value.block] + Blocks(text[hit.value.end..])
  }

  function ParsePatch(text: string): Result<seq<Block>, PatchError> {
    var blocks := Blocks(text);
    if blocks == [] then Err(NoBlocks) else Ok(blocks)
  }

  /** The texts a block can carry: no divider that starts inside the search, no footer inside the replacement. */
  ghost predicate Clean(b: Block) {
    !Contains(b.search + "\n", DIVIDER) && !Contains(b.replace, FOOTER)
  }

  lemma OccursInside(before: string, text: string, after: string, needle: string, i: nat)
    requires i + |needle| <= |text|
    ensures Occurs(before + text + after, needle, |before| + i) <==> Occurs(text, needle, i)
  {
    assert (before + text + after)[|before| + i..|before| + i + |needle|] == text[i..i + |needle|];
  }

  /** A header cannot start in front of another one and run into it. */
  lemma HeaderStandsAlone(before: string, after: string, i: nat)
    requires i < |before| && Occurs(before + HEADER + after, HEADER, i)
    ensures Occurs(before, HEADER, i)
  {
    var text := before + HEADER + after;
    assert text[i..i + |HEADER|][|HEADER| - 1] == text[i + |HEADER| - 1];
    if i + |HEADER| > |before| {
      assert text[i + |HEADER| - 1] == HEADER[i + |HEADER| - 1 - |before|];
      OnlyLastNewline(i + |HEADER| - 1 - |before|);
    }
    assert text == [] + before + (HEADER + after);
    OccursInside([], before, HEADER + after, HEADER, i);
  }

  lemma OnlyLastNewline(k: nat)
    requires k < |HEADER| - 1
    ensures HEADER[k] != HEADER[|HEADER| - 1]
  {
  }

  /** A divider that starts in front of another one overlaps it by at most its first newline. */
  lemma DividerOverlap(before: string, after: string, i: nat)
    requires i < |before| && Occurs(before + DIVIDER + after, DIVIDER, i)
    ensures Occurs(before + "\n", DIVIDER, i)
  {
    var text := before + DIVIDER + after;
    if i + |DIVIDER| > |before| + 1 {
      assert text[i..i + |DIVIDER|][|before| - i] == text[|before|] == DIVIDER[0];
      OnlyEdgeNewlines(|before| - i);
    }
    assert DIVIDER == "\n" + DIVIDER[1..];
    assert text == [] + (before + "\n") + (DIVIDER[1..] + after);
    OccursInside([], before + "\n", DIVIDER[1..] + after, DIVIDER, i);
  }

  lemma OnlyEdgeNewlines(k: nat)
    requires 0 < k < |DIVIDER| - 1
    ensures DIVIDER[k] != DIVIDER[0]
  {
  }

  /** A footer cannot start in front of another one and run into it. */
  lemma FooterStandsAlone(before: string, after: string, i: nat)
    requires i < |before| && Occurs(before + FOOTER + after, FOOTER, i)
    ensures Occurs(before, FOOTER, i)
  {
    var text := before + FOOTER + after;
    if i + |FOOTER| > |before| {
      assert text[i..i + |FOOTER|][|before| - i] == text[|before|] == FOOTER[0];
      OnlyFirstNewline(|before| - i);
    }
    assert text == [] + before + (FOOTER + after);
    OccursInside([], before, FOOTER + after, FOOTER, i);
  }

  lemma OnlyFirstNewline(k: nat)
    requires 0 < k < |FOOTER|
    ensures FOOTER[k] != FOOTER[0]
  {
  }

  // A built patch and the scan

  function Text(b: Block): string {
    BuildPatch(b.search, b.replace)
  }

  lemma BuiltMatches(before: string, b: Block, after: string)
    ensures MatchesAt(before + Text(b) + after, |before|, b)
  {
    OccursInside(before, Text(b), after, Text(b), 0);
    assert Text(b)[0..|Text(b)|] == Text(b);
  }

  /** The markers of a built patch, seen from inside each of its two groups. */
  lemma BuiltAround(before: string, b: Block, after: string)
    ensures var text := before + Text(b) + after;
      && text == before + HEADER + (b.search + DIVIDER + (b.replace + FOOTER + after))
      && text == (before + HEADER) + (b.search + DIVIDER + (b.replace + FOOTER + after)) + []
      && text == (before + HEADER + b.search + DIVIDER) + (b.replace + FOOTER + after) + []
  {
  }

  /** The scan of a built patch starts at the patch and stops no later than its own markers. */
  lemma ScanMeetsPatch(before: string, b: Block, after: string)
    requires !Contains(before, HEADER)
    ensures var scan := Scan(before + Text(b) + after);
      && scan.Some? && scan.value.start == |before| && IsFirstMatch(before + Text(b) + after, scan.value)
      && (|scan.value.block.search| < |b.search|
          || (scan.value.block.search == b.search && |scan.value.block.replace| <= |b.replace|))
  {
    var text := before + Text(b) + after;
    BuiltMatches(before, b, after);
    ScanIsTheFirstMatch(text);
    var hit := Scan(text).value;
    MatchMarkers(text, hit.start, hit.block);
    if hit.start < |before| {
      BuiltAround(before, b, after);
      HeaderStandsAlone(before, b.search + DIVIDER + (b.replace + FOOTER + after), hit.start);
    }
  }

  lemma SameStretch(text: string, a: string, b: string, i: nat)
    requires Occurs(text, a, i) && Occurs(text, b, i) && |a| == |b|
    ensures a == b
  {
  }

  lemma NoEarlierDivider(before: string, b: Block, after: string, k: nat)
    requires !Contains(b.search + "\n", DIVIDER) && k < |b.search|
    ensures !Occurs(before + Text(b) + after, DIVIDER, |before| + |HEADER| + k)
  {
    var rest := b.replace + FOOTER + after;
    BuiltAround(before, b, after);
    OccursInside(before + HEADER, b.search + DIVIDER + rest, [], DIVIDER, k);
    if Occurs(b.search + DIVIDER + rest, DIVIDER, k) {
      DividerOverlap(b.search, rest, k);
    }
  }

  lemma NoEarlierFooter(before: string, b: Block, after: string, k: nat)
    requires !Contains(b.replace, FOOTER) && k < |b.replace|
    ensures !Occurs(before + Text(b) + after, FOOTER, |before| + |HEADER| + |b.search| + |DIVIDER| + k)
  {
    BuiltAround(before, b, after);
    OccursInside(before + HEADER + b.search + DIVIDER, b.replace + FOOTER + after, [], FOOTER, k);
    if Occurs(b.replace + FOOTER + after, FOOTER, k) {
      FooterStandsAlone(b.replace, after, k);
    }
  }

  /** Without an earlier divider or footer, a match that is no longer than another is that one. */
  lemma WholeMatch(text: string, p: nat, b: Block, found: Block)
    requires Markers(text, p, b) && Markers(text, p, found)
    requires |found.search| < |b.search| ==> !Occurs(text, DIVIDER, p + |HEADER| + |found.search|)
    requires |found.replace| < |b.replace| ==> !Occurs(text, FOOTER, p + |HEADER| + |b.search| + |DIVIDER| + |found.replace|)
    requires |found.search| < |b.search| || (found.search == b.search && |found.replace| <= |b.replace|)
    ensures found == b
  {
    if found.search == b.search && |found.replace| == |b.replace| {
      SameStretch(text, found.replace, b.replace, p + |HEADER| + |b.search| + |DIVIDER|);
    }
  }

  /** Neither marker occurs early in the groups that start at `p`. */
  ghost predicate NoEarlyMarker(text: string, p: nat, b: Block) {
    var d := p + |HEADER| + |b.search|;
    && (forall i: nat :: p + |HEADER| <= i < d ==> !Occurs(text, DIVIDER, i))
    && (forall i: nat :: d + |DIVIDER| <= i < d + |DIVIDER| + |b.replace| ==> !Occurs(text, FOOTER, i))
  }

  lemma CleanHasNoEarlyMarker(before: string, b: Block, after: string)
    requires Clean(b)
    ensures NoEarlyMarker(before + Text(b) + after, |before|, b)
  {
    var text, p := before + Text(b) + after, |before|;
    var d := p + |HEADER| + |b.search|;
    forall i: nat | p + |HEADER| <= i < d ensures !Occurs(text, DIVIDER, i) {
      NoEarlierDivider(before, b, after, i - p - |HEADER|);
    }
    forall i: nat | d + |DIVIDER| <= i < d + |DIVIDER| + |b.replace| ensures !Occurs(text, FOOTER, i) {
      NoEarlierFooter(before, b, after, i - d - |DIVIDER|);
    }
  }

  lemma PrefixOccurs(text: string, a: string, i: nat, k: nat)
    requires Occurs(text, a, i) && k <= |a|
    ensures Occurs(text, a[..k], i)
  {
    assert text[i..i + k] == text[i..i + |a|][..k];
  }

  lemma MiddleOccurs(text: string, a: string, needle: string, i: nat, j: nat)
    requires Occurs(text, a, i) && Occurs(a, needle, j)
    ensures Occurs(text, needle, i + j)
  {
    SliceOfSlice(text, i, |a|, j, |needle|);
  }

  lemma SliceOfSlice(text: string, i: nat, m: nat, j: nat, n: nat)
    requires i + m <= |text| && j + n <= m
    ensures text[i..i + m][j..j + n] == text[i + j..i + j + n]
  {
    var whole := text[i..i + m];
    var part := whole[j..j + n];
    var same := text[i + j..i + j + n];
    forall k | 0 <= k < n ensures part[k] == same[k] {
      assert whole[j + k] == text[i + (j + k)];
    }
  }

  lemma StretchOccurs(text: string, i: nat, e: nat)
    requires i <= e <= |text|
    ensures Occurs(text, text[i..e], i)
  {
  }

  /** A divider that starts inside the search gives a shorter match. */
  lemma EarlyDivider(text: string, p: nat, b: Block, j: nat) returns (early: Block)
    requires Markers(text, p, b) && Occurs(b.search + "\n", DIVIDER, j)
    ensures Markers(text, p, early) && |early.search| < |b.search|
  {
    var d := p + |HEADER|;
    var f := d + |b.search| + |DIVIDER| + |b.replace|;
    DividerInside(text, b.search, d, j);
    PrefixOccurs(text, b.search, d, j);
    StretchOccurs(text, d + j + |DIVIDER|, f);
    early := Block(b.search[..j], text[d + j + |DIVIDER|..f]);
    assert |early.search| == j && d + j + |DIVIDER| + |early.replace| == f;
  }

  lemma DividerInside(text: string, search: string, d: nat, j: nat)
    requires Occurs(text, search, d) && Occurs(text, DIVIDER, d + |search|) && Occurs(search + "\n", DIVIDER, j)
    ensures j < |search| && Occurs(text, DIVIDER, d + j)
  {
    NewlineAfter(text, search, d);
    MiddleOccurs(text, search + "\n", DIVIDER, d, j);
  }

  lemma NewlineAfter(text: string, search: string, d: nat)
    requires Occurs(text, search, d) && Occurs(text, DIVIDER, d + |search|)
    ensures Occurs(text, search + "\n", d)
  {
    PrefixOccurs(text, DIVIDER, d + |search|, 1);
    assert DIVIDER[..1] == "\n";
    OccursSplit(text, search, "\n", d);
  }

  /** A footer inside the replacement gives a shorter match. */
  lemma EarlyFooter(text: string, p: nat, b: Block, j: nat) returns (early: Block)
    requires Markers(text, p, b) && Occurs(b.replace, FOOTER, j)
    ensures Markers(text, p, early) && early.search == b.search && |early.replace| < |b.replace|
  {
    var r := p + |HEADER| + |b.search| + |DIVIDER|;
    MiddleOccurs(text, b.replace, FOOTER, r, j);
    PrefixOccurs(text, b.replace, r, j);
    early := Block(b.search, b.replace[..j]);
  }

  lemma FirstMatchIsLeast(text: string, hit: Hit, b: Block)
    requires IsFirstMatch(text, hit) && Markers(text, hit.start, b)
    ensures |b.search| > |hit.block.search| || (b.search == hit.block.search && |b.replace| >= |hit.block.replace|)
  {
    MatchMarkers(text, hit.start, b);
  }

  /** A block that is not clean is cut short by its own texts. */
  lemma UncleanIsCut(text: string, b: Block, hit: Hit)
    requires IsFirstMatch(text, hit) && Markers(text, hit.start, b) && !Clean(b)
    ensures hit.block != b
  {
    if Contains(b.search + "\n", DIVIDER) {
      var j: nat :| Occurs(b.search + "\n", DIVIDER, j);
      var early := EarlyDivider(text, hit.start, b, j);
      FirstMatchIsLeast(text, hit, early);
    } else {
      var j: nat :| Occurs(b.replace, FOOTER, j);
      var early := EarlyFooter(text, hit.start, b, j);
      FirstMatchIsLeast(text, hit, early);
    }
  }

  /** The first match at a block's markers is that block exactly when the block is clean. */
  lemma FirstMatchExactly(text: string, b: Block, hit: Hit)
    requires IsFirstMatch(text, hit) && Markers(text, hit.start, b)
    requires Clean(b) ==> NoEarlyMarker(text, hit.start, b)
    requires |hit.block.search| < |b.search| || (hit.block.search == b.search && |hit.block.replace| <= |b.replace|)
    ensures hit.block == b <==> Clean(b)
  {
    if Clean(b) {
      MatchMarkers(text, hit.start, hit.block);
      WholeMatch(text, hit.start, b, hit.block);
    } else {
      UncleanIsCut(text, b, hit);
    }
  }

  /** The scan returns a built patch's block exactly when the block is clean. */
  lemma ScanReturnsExactly(before: string, b: Block, after: string)
    requires !Contains(before, HEADER)
    ensures Scan(before + Text(b) + after).Some?
    ensures Scan(before + Text(b) + after).value.block == b <==> Clean(b)
    ensures Clean(b) ==> Scan(before + Text(b) + after).value.end == |before| + |Text(b)|
  {
    ScanMeetsPatch(before, b, after);
    BuiltMatches(before, b, after);
    MatchMarkers(before + Text(b) + after, |before|, b);
    if Clean(b) {
      CleanHasNoEarlyMarker(before, b, after);
    }
    FirstMatchExactly(before + Text(b) + after, b, Scan(before + Text(b) + after).value);
  }

  // Round trip

  /** Built patches with texts before each of them and after the last. */
  function Document(glue: seq<string>, blocks: seq<Block>, tail: string): string
    requires |glue| == |blocks|
  {
    if blocks == [] then tail else glue[0] + Text(blocks[0]) + Document(glue[1..], blocks[1..], tail)
  }

  ghost predicate Headerless(texts: seq<string>) {
    forall i :: 0 <= i < |texts| ==> !Contains(texts[i], HEADER)
  }

  lemma NoHeaderNoBlocks(text: string)
    requires !Contains(text, HEADER)
    ensures Blocks(text) == []
  {
  }

  ghost predicate AllClean(blocks: seq<Block>) {
    forall i :: 0 <= i < |blocks| ==> Clean(blocks[i])
  }

  /** After the first match the search goes on behind it. */
  lemma BlocksUnfold(text: string, hit: Hit)
    requires Scan(text) == Some(hit)
    ensures Blocks(text) == [hit.block] + Blocks(text[hit.end..])
  {
  }

  lemma FirstBlockDecides(before: string, b: Block, rest: string)
    requires !Contains(before, HEADER)
    ensures Clean(b) ==> Blocks(before + Text(b) + rest) == [b] + Blocks(rest)
    ensures !Clean(b) ==> Blocks(before + Text(b) + rest) != [] && Blocks(before + Text(b) + rest)[0] != b
  {
    var text := before + Text(b) + rest;
    ScanReturnsExactly(before, b, rest);
    BlocksUnfold(text, Scan(text).value);
    assert text[|before| + |Text(b)|..] == rest;
  }

  lemma FirstAndRest(blocks: seq<Block>, rest: seq<Block>)
    requires blocks != []
    ensures [blocks[0]] + rest == blocks <==> rest == blocks[1..]
  {
    assert ([blocks[0]] + rest)[1..] == rest;
  }

  /**
   Parsing built patches among texts without a header returns exactly their blocks if and only if
   every block is clean.
   */
  lemma {:induction false} ParsesBackExactly(glue: seq<string>, blocks: seq<Block>, tail: string)
    requires |glue| == |blocks| && Headerless(glue) && !Contains(tail, HEADER)
    ensures Blocks(Document(glue, blocks, tail)) == blocks <==> AllClean(blocks)
  {
    if blocks == [] {
      NoHeaderNoBlocks(tail);
    } else {
      var rest := Document(glue[1..], blocks[1..], tail);
      FirstBlockDecides(glue[0], blocks[0], rest);
      ParsesBackExactly(glue[1..], blocks[1..], tail);
      CleanTail(blocks);
      FirstAndRest(blocks, Blocks(rest));
    }
  }

  lemma CleanTail(blocks: seq<Block>)
    requires blocks != []
    ensures AllClean(blocks) <==> Clean(blocks[0]) && AllClean(blocks[1..])
  {
    if Clean(blocks[0]) && AllClean(blocks[1..]) {
      forall i | 0 <= i < |blocks| ensures Clean(blocks[i]) {
        if i > 0 {
          assert blocks[1..][i - 1] == blocks[i];
        }
      }
    }
  }

  /** Parsing fails exactly when nothing in the text matches the pattern. */
  lemma ParseFailsExactly(text: string)
    ensures ParsePatch(text).Err? <==> forall p: nat, b: Block :: !MatchesAt(text, p, b)
  {
    ScanIsTheFirstMatch(text);
  }

  // Application

  /** `source.replace(search, replace, 1)`. */
  function ReplaceFirst(source: string, search: string, replace: string): string {
    var i := Find(source, search, 0);
    if i.None? then source else source[..i.value] + replace + source[i.value + |search|..]
  }

  function ApplyBlock(source: string, b: Block): Result<string, PatchError> {
    var found := UniqueSearchMatch(source, b.search);
    if found.Err? then Err(found.error) else Ok(ReplaceFirst(source, b.search, b.replace))
  }

  function ApplyBlocks(source: string, blocks: seq<Block>): Result<string, PatchError>
    decreases |blocks|
  {
    if blocks == [] then Ok(source)
    else
      var next := ApplyBlock(source, blocks[0]);
      if next.Err? then next else ApplyBlocks(next.value, blocks[1..])
  }

  function ApplyPatch(source: string, patch: string): Result<string, PatchError> {
    var blocks := ParsePatch(patch);
    if blocks.Err? then Err(blocks.error) else ApplyBlocks(source, blocks.value)
  }

  method ApplyPatchToText(source: string, patch: string) returns (result: Result<string, PatchError>)
    ensures result == ApplyPatch(source, patch)
  {
    var blocks :- ParsePatch(patch);
    var text := source;
    var k := 0;
    while k < |blocks|
      invariant 0 <= k <= |blocks|
      invariant ApplyBlocks(source, blocks) == ApplyBlocks(text, blocks[k..])
    {
      var block := blocks[k];
      assert blocks[k..][0] == block && blocks[k..][1..] == blocks[k + 1..];
      var found := UniqueSearchMatch(text, block.search);
      if found.Err? {
        return Err(found.error);
      }
      text := ReplaceFirst(text, block.search, block.replace);
      k := k + 1;
    }
    result := Ok(text);
  }

  function Reverse(b: Block): Block {
    Block(b.replace, b.search)
  }

  lemma PutBack(source: string, search: string, replace: string, i: nat)
    requires Occurs(source, search, i)
    ensures var result := source[..i] + replace + source[i + |search|..];
      Occurs(result, replace, i) && result[..i] + search + result[i + |replace|..] == source
  {
    var before, after := source[..i], source[i + |search|..];
    var result := before + replace + after;
    assert result[i..i + |replace|] == replace;
    assert result[..i] == before && result[i + |replace|..] == after;
    assert source == before + source[i..i + |search|] + after;
  }

  /** A block that applies replaces the one place its search occurs at. */
  lemma AppliedAt(source: string, b: Block)
    requires ApplyBlock(source, b).Ok?
    ensures UniqueSearchMatch(source, b.search).Ok?
    ensures var i := UniqueSearchMatch(source, b.search).value;
      i + |b.search| <= |source| && ApplyBlock(source, b).value == source[..i] + b.replace + source[i + |b.search|..]
  {
  }

  /** Undoing a block restores the source exactly when its replacement is unique in the result. */
  lemma UndoRestoresExactly(source: string, b: Block)
    requires ApplyBlock(source, b).Ok?
    ensures ApplyBlock(ApplyBlock(source, b).value, Reverse(b)) == Ok(source)
      <==> UniqueSearchMatch(ApplyBlock(source, b).value, b.replace).Ok?
  {
    AppliedAt(source, b);
    var i := UniqueSearchMatch(source, b.search).value;
    var result := ApplyBlock(source, b).value;
    PutBack(source, b.search, b.replace, i);
    if UniqueSearchMatch(result, b.replace).Ok? {
      AppliedAt(result, Reverse(b));
    }
  }

  /** The same for the printed patch of a block and of its reverse. */
  lemma PatchUndoRestoresExactly(source: string, b: Block)
    requires Clean(b) && Clean(Reverse(b)) && ApplyPatch(source, Text(b)).Ok?
    ensures ApplyPatch(source, Text(b)) == ApplyBlock(source, b)
    ensures ApplyPatch(ApplyPatch(source, Text(b)).value, Text(Reverse(b))) == Ok(source)
      <==> UniqueSearchMatch(ApplyPatch(source, Text(b)).value, b.replace).Ok?
  {
    CleanPatchApplies(source, b);
    UndoRestoresExactly(source, b);
    CleanPatchApplies(ApplyPatch(source, Text(b)).value, Reverse(b));
  }

  lemma CleanPatchApplies(source: string, b: Block)
    requires Clean(b)
    ensures ApplyPatch(source, Text(b)) == ApplyBlock(source, b)
  {
    FirstBlockDecides("", b, "");
    NoHeaderNoBlocks("");
    assert "" + Text(b) + "" == Text(b);
    assert Blocks(Text(b)) == [b];
    OneBlock(source, b);
  }

  lemma OneBlock(source: string, b: Block)
    ensures ApplyBlocks(source, [b]) == ApplyBlock(source, b)
  {
    assert [b][1..] == [];
  }

  /** Every replacement was unique when it was made. */
  predicate Undoable(source: string, blocks: seq<Block>)
    decreases |blocks|
  {
    blocks == [] || (
      ApplyBlock(source, blocks[0]).Ok? && UniqueSearchMatch(ApplyBlock(source, blocks[0]).value, blocks[0].replace).Ok?
      && Undoable(ApplyBlock(source, blocks[0]).value, blocks[1..]))
  }

  function ReverseAll(blocks: seq<Block>): seq<Block> {
    if blocks == [] then [] else ReverseAll(blocks[1..]) + [Reverse(blocks[0])]
  }

  lemma {:induction false} ApplyInTwoParts(source: string, a: seq<Block>, b: seq<Block>)
    ensures ApplyBlocks(source, a + b) ==
      if ApplyBlocks(source, a).Err? then ApplyBlocks(source, a) else ApplyBlocks(ApplyBlocks(source, a).value, b)
    decreases |a|
  {
    if a == [] {
      assert a + b == b;
    } else {
      assert (a + b)[1..] == a[1..] + b && (a + b)[0] == a[0];
      var next := ApplyBlock(source, a[0]);
      if next.Ok? {
        ApplyInTwoParts(next.value, a[1..], b);
      }
    }
  }

  /** A whole patch is undone by its reversed blocks in the opposite order. */
  lemma {:induction false} UndoAllRestores(source: string, blocks: seq<Block>)
    requires Undoable(source, blocks)
    ensures ApplyBlocks(source, blocks).Ok?
    ensures ApplyBlocks(ApplyBlocks(source, blocks).value, ReverseAll(blocks)) == Ok(source)
    decreases |blocks|
  {
    if blocks != [] {
      var next := ApplyBlock(source, blocks[0]).value;
      UndoAllRestores(next, blocks[1..]);
      UndoRestoresExactly(source, blocks[0]);
      ApplyInTwoParts(ApplyBlocks(source, blocks).value, ReverseAll(blocks[1..]), [Reverse(blocks[0])]);
      OneBlock(next, Reverse(blocks[0]));
    }
  }
}
