/**
 * The text/table strategy with parents and children.
 *
 * Pass one cuts the elements into text runs and tables; pass two emits every table whole and
 * every text run as parent sections, each followed by its overlapping child windows.
 * A parent's chunker-local hierarchy id is fresh in the source; the parent's own chunk index
 * stands for it here.
 */
module DualChunking {
  import opened Support
  import opened Chunking

  datatype Config = Config(childSize: nat, childOverlap: nat, parentSize: nat)

  predicate Accepted(cfg: Config) {
    cfg.childOverlap < cfg.childSize <= cfg.parentSize
  }

  datatype Segment = TextRun(tokens: Text, metadata: Metadata) | WholeTable(element: Element)

  // ---- Pass one ----

  function Flush(run: Text, metadata: Metadata): seq<Segment> {
    if run == [] then [] else [TextRun(run, metadata)]
  }

  /** The segments of `elements` after a run already accumulated. */
  function Segments(elements: seq<Element>, run: Text, metadata: Metadata): seq<Segment> {
    if elements == [] then Flush(run, metadata)
    else
      var e, rest := elements[0], elements[1..];
      if e.kind.PageBreak? || e.kind.Image? then Segments(rest, run, metadata)
      else if e.kind.Table? then
        Flush(run, metadata) + [WholeTable(e)] + Segments(rest, [], if run == [] then metadata else map[])
      else Segments(rest, run + e.text, if run == [] && e.text != [] then e.metadata else metadata)
  }

  method CollectSegments(elements: seq<Element>) returns (segments: seq<Segment>)
    ensures segments == Segments(elements, [], map[])
  {
    segments := [];
    var run: Text := [];
    var metadata: Metadata := map[];
    for n := 0 to |elements|
      invariant segments + Segments(elements[n..], run, metadata) == Segments(elements, [], map[])
    {
      var e := elements[n];
      assert elements[n..][1..] == elements[n + 1..];
      if e.kind == PageBreak || e.kind == Image {
        continue;
      }
      if e.kind.Table? {
        if run != [] {
          segments := segments + [TextRun(run, metadata)];
          run, metadata := [], map[];
        }
        segments := segments + [WholeTable(e)];
      } else {
        if run == [] && e.text != [] {
          metadata := e.metadata;
        }
        run := run + e.text;
      }
    }
    if run != [] {
      segments := segments + [TextRun(run, metadata)];
    }
  }

  // ---- Pass two ----

  function TableChunk(e: Element, index: nat): DocumentChunk {
    DocumentChunk(Table, e.text, if e.format == "text" then "html" else e.format, e.metadata, index, NoLevel, None, {})
  }

  function ParentChunk(text: Text, metadata: Metadata, index: nat): DocumentChunk {
    DocumentChunk(TextElement, text, "text", metadata, index, Parent, Some(index), {})
  }

  function ChildChunk(text: Text, metadata: Metadata, index: nat, parent: nat): DocumentChunk {
    DocumentChunk(TextElement, text, "text", metadata, index, Child, Some(parent), {})
  }

  function ChildChunks(ws: seq<Window>, metadata: Metadata, index: nat, parent: nat): (chunks: seq<DocumentChunk>)
    ensures |chunks| == |ws|
  {
    if ws == [] then []
    else [ChildChunk(ws[0].tokens, metadata, index, parent)] + ChildChunks(ws[1..], metadata, index + 1, parent)
  }

  function ChildWindows(section: Text, cfg: Config, decodes: Text -> bool): seq<Window>
    requires Accepted(cfg)
  {
    Windows(section, cfg.childSize, cfg.childOverlap, decodes, 0, 0)
  }

  /** A parent section with its children, the parent at `index`. */
  function Family(section: Text, metadata: Metadata, index: nat, cfg: Config, decodes: Text -> bool): seq<DocumentChunk>
    requires Accepted(cfg)
  {
    [ParentChunk(section, metadata, index)]
    + ChildChunks(ChildWindows(section, cfg, decodes), metadata, index + 1, index)
  }

  function EmitRun(tokens: Text, metadata: Metadata, start: nat, index: nat, cfg: Config,
      decodes: Text -> bool): seq<DocumentChunk>
    requires Accepted(cfg)
    decreases |tokens| - start
  {
    if start >= |tokens| then []
    else
      var end := Min(start + cfg.parentSize, |tokens|);
      var section := tokens[start..end];
      if !decodes(section) then EmitRun(tokens, metadata, end, index, cfg, decodes)
      else
        var family := Family(section, metadata, index, cfg, decodes);
        family + EmitRun(tokens, metadata, end, index + |family|, cfg, decodes)
  }

  function EmitSegment(segment: Segment, index: nat, cfg: Config, decodes: Text -> bool): seq<DocumentChunk>
    requires Accepted(cfg)
  {
    match segment
    case WholeTable(e) => [TableChunk(e, index)]
    case TextRun(tokens, metadata) => EmitRun(tokens, metadata, 0, index, cfg, decodes)
  }

  function Emit(segments: seq<Segment>, index: nat, cfg: Config, decodes: Text -> bool): seq<DocumentChunk>
    requires Accepted(cfg)
  {
    if segments == [] then []
    else
      var first := EmitSegment(segments[0], index, cfg, decodes);
      first + Emit(segments[1..], index + |first|, cfg, decodes)
  }

  lemma {:induction false} EmitCons(segment: Segment, rest: seq<Segment>, index: nat, cfg: Config,
      decodes: Text -> bool)
    requires Accepted(cfg)
    ensures Emit([segment] + rest, index, cfg, decodes)
         == EmitSegment(segment, index, cfg, decodes)
            + Emit(rest, index + |EmitSegment(segment, index, cfg, decodes)|, cfg, decodes)
  {
    assert ([segment] + rest)[1..] == rest;
  }

  function DualChunks(elements: seq<Element>, cfg: Config, decodes: Text -> bool): seq<DocumentChunk>
    requires Accepted(cfg)
  {
    Emit(Segments(elements, [], map[]), 0, cfg, decodes)
  }

  lemma {:induction false} ChildChunksCons(before: seq<DocumentChunk>, ws: seq<Window>, metadata: Metadata,
      index: nat, parent: nat)
    requires ws != []
    ensures before + ChildChunks(ws, metadata, index, parent)
         == (before + [ChildChunk(ws[0].tokens, metadata, index, parent)])
              + ChildChunks(ws[1..], metadata, index + 1, parent)
  {
    Associate(before, [ChildChunk(ws[0].tokens, metadata, index, parent)],
              ChildChunks(ws[1..], metadata, index + 1, parent));
  }

  lemma {:induction false} FamilyIs(section: Text, metadata: Metadata, index: nat, cfg: Config, decodes: Text -> bool)
    requires Accepted(cfg)
    ensures Family(section, metadata, index, cfg, decodes)
         == [ParentChunk(section, metadata, index)]
              + ChildChunks(ChildWindows(section, cfg, decodes), metadata, index + 1, index)
    ensures forall i: nat :: ChildChunks([], metadata, i, index) == []
  {
  }

  /** A parent and its child loop. */
  method EmitFamily(section: Text, metadata: Metadata, parent: nat, cfg: Config, decodes: Text -> bool)
    returns (chunks: seq<DocumentChunk>)
    requires Accepted(cfg)
    ensures chunks == Family(section, metadata, parent, cfg, decodes)
  {
    hide ChildChunks, Family;
    chunks := [ParentChunk(section, metadata, parent)];
    FamilyIs(section, metadata, parent, cfg, decodes);
    var step := cfg.childSize - cfg.childOverlap;
    var childStart := 0;
    ghost var attempts := 0;
    ghost var rest := ChildWindows(section, cfg, decodes);
    while childStart < |section|
      invariant childStart >= 0 && attempts >= 0
      invariant rest == Windows(section, cfg.childSize, cfg.childOverlap, decodes, childStart, attempts)
      invariant chunks + ChildChunks(rest, metadata, parent + |chunks|, parent)
           == Family(section, metadata, parent, cfg, decodes)
      decreases |section| - childStart
    {
      var childEnd := Min(childStart + cfg.childSize, |section|);
      var slice := section[childStart..childEnd];
      attempts := attempts + 1;
      if !decodes(slice) {
        childStart := childStart + step;
        continue;
      }
      ChildChunksCons(chunks, rest, metadata, parent + |chunks|, parent);
      chunks := chunks + [ChildChunk(slice, metadata, parent + |chunks|, parent)];
      rest := rest[1..];
      if childEnd >= |section| {
        break;
      }
      childStart := childStart + step;
    }
    assert rest == [];
  }

  /** The parent loop of one text run. */
  method EmitParents(tokens: Text, metadata: Metadata, index: nat, cfg: Config, decodes: Text -> bool)
    returns (chunks: seq<DocumentChunk>)
    requires Accepted(cfg)
    ensures chunks == EmitRun(tokens, metadata, 0, index, cfg, decodes)
  {
    chunks := [];
    var parentStart := 0;
    ghost var rest := EmitRun(tokens, metadata, 0, index, cfg, decodes);
    ghost var all := rest;
    while parentStart < |tokens|
      invariant 0 <= parentStart
      invariant rest == EmitRun(tokens, metadata, parentStart, index + |chunks|, cfg, decodes)
      invariant chunks + rest == all
      decreases |tokens| - parentStart
    {
      var parentEnd := Min(parentStart + cfg.parentSize, |tokens|);
      var section := tokens[parentStart..parentEnd];
      parentStart := parentEnd;
      if !decodes(section) {
        continue;
      }
      var parentIndex := index + |chunks|;
      var family := EmitFamily(section, metadata, parentIndex, cfg, decodes);
      rest := EmitRun(tokens, metadata, parentEnd, parentIndex + |family|, cfg, decodes);
      Associate(chunks, family, rest);
      chunks := chunks + family;
    }
  }

  lemma {:induction false} EmitAt(segments: seq<Segment>, n: nat, index: nat, cfg: Config, decodes: Text -> bool)
    requires Accepted(cfg) && n < |segments|
    ensures var first := EmitSegment(segments[n], index, cfg, decodes);
      Emit(segments[n..], index, cfg, decodes) == first + Emit(segments[n + 1..], index + |first|, cfg, decodes)
  {
    assert segments[n..][1..] == segments[n + 1..];
  }

  /** The segment loop. */
  method EmitSegments(segments: seq<Segment>, cfg: Config, decodes: Text -> bool) returns (chunks: seq<DocumentChunk>)
    requires Accepted(cfg)
    ensures chunks == Emit(segments, 0, cfg, decodes)
  {
    hide Emit, EmitRun;
    chunks := [];
    assert segments[0..] == segments;
    ghost var rest := Emit(segments, 0, cfg, decodes);
    ghost var all := rest;
    for n := 0 to |segments|
      invariant rest == Emit(segments[n..], |chunks|, cfg, decodes)
      invariant chunks + rest == all
    {
      var emitted;
      match segments[n] {
        case WholeTable(e) => emitted := [TableChunk(e, |chunks|)];
        case TextRun(tokens, metadata) => emitted := EmitParents(tokens, metadata, |chunks|, cfg, decodes);
      }
      EmitAt(segments, n, |chunks|, cfg, decodes);
      rest := Emit(segments[n + 1..], |chunks| + |emitted|, cfg, decodes);
      Associate(chunks, emitted, rest);
      chunks := chunks + emitted;
    }
    assert segments[|segments|..] == [];
    NothingToEmit(|chunks|, cfg, decodes);
  }

  lemma {:induction false} NothingToEmit(index: nat, cfg: Config, decodes: Text -> bool)
    requires Accepted(cfg)
    ensures Emit([], index, cfg, decodes) == []
  {
  }

  method ChunkDual(elements: seq<Element>, cfg: Config, decodes: Text -> bool)
    returns (r: Result<seq<DocumentChunk>, ConfigError>)
    ensures r == if cfg.childOverlap >= cfg.childSize then Err(OverlapNotBelowSize)
                 else if cfg.parentSize < cfg.childSize then Err(ParentBelowChild)
                 else Ok(DualChunks(elements, cfg, decodes))
  {
    if cfg.childOverlap >= cfg.childSize {
      return Err(OverlapNotBelowSize);
    }
    if cfg.parentSize < cfg.childSize {
      return Err(ParentBelowChild);
    }
    var segments := CollectSegments(elements);
    var chunks := EmitSegments(segments, cfg, decodes);
    return Ok(chunks);
  }

  // ---- Positions and links ----

  /** Chunk i carries index base + i; a parent owns its index; a child points back to a parent containing it. */
  ghost predicate WellLinked(chunks: seq<DocumentChunk>, base: nat) {
    forall i | 0 <= i < |chunks| :: WellLinkedAt(chunks, base, i)
  }

  ghost predicate WellLinkedAt(chunks: seq<DocumentChunk>, base: nat, i: nat)
    requires i < |chunks|
  {
    var c := chunks[i];
    && c.index == base + i
    && match c.level
       case NoLevel => c.parent == None
       case Parent => c.parent == Some(base + i)
       case Child => && c.parent.Some? && base <= c.parent.value < base + i
                     && ParentOf(chunks[c.parent.value - base], c)
  }

  ghost predicate ParentOf(parent: DocumentChunk, child: DocumentChunk) {
    parent.level.Parent? && parent.parent == child.parent && IsSlice(child.text, parent.text)
  }

  lemma {:induction false} WellLinkedJoin(a: seq<DocumentChunk>, b: seq<DocumentChunk>, base: nat)
    requires WellLinked(a, base) && WellLinked(b, base + |a|)
    ensures WellLinked(a + b, base)
  {
    var c := a + b;
    forall i | 0 <= i < |c| ensures WellLinkedAt(c, base, i) {
      if i < |a| {
        assert WellLinkedAt(a, base, i);
      } else {
        assert WellLinkedAt(b, base + |a|, i - |a|);
      }
    }
  }

  lemma {:induction false} ChildChunksAt(ws: seq<Window>, metadata: Metadata, index: nat, parent: nat, i: nat)
    requires i < |ws|
    ensures ChildChunks(ws, metadata, index, parent)[i] == ChildChunk(ws[i].tokens, metadata, index + i, parent)
  {
    if i > 0 {
      ChildChunksAt(ws[1..], metadata, index + 1, parent, i - 1);
    }
  }

  lemma {:induction false} FamilyLinked(section: Text, metadata: Metadata, index: nat, cfg: Config,
      decodes: Text -> bool)
    requires Accepted(cfg)
    ensures WellLinked(Family(section, metadata, index, cfg, decodes), index)
  {
    var family, ws := Family(section, metadata, index, cfg, decodes), ChildWindows(section, cfg, decodes);
    forall i | 0 <= i < |family| ensures WellLinkedAt(family, index, i) {
      if i > 0 {
        ChildChunksAt(ws, metadata, index + 1, index, i - 1);
        WindowsAreSlices(section, cfg.childSize, cfg.childOverlap, decodes, 0, 0, i - 1);
      }
    }
  }

  lemma {:induction false} RunLinked(tokens: Text, metadata: Metadata, start: nat, index: nat, cfg: Config,
      decodes: Text -> bool)
    requires Accepted(cfg)
    ensures WellLinked(EmitRun(tokens, metadata, start, index, cfg, decodes), index)
    decreases |tokens| - start
  {
    if start < |tokens| {
      var end := Min(start + cfg.parentSize, |tokens|);
      var section := tokens[start..end];
      if !decodes(section) {
        RunLinked(tokens, metadata, end, index, cfg, decodes);
      } else {
        var family := Family(section, metadata, index, cfg, decodes);
        FamilyLinked(section, metadata, index, cfg, decodes);
        RunLinked(tokens, metadata, end, index + |family|, cfg, decodes);
        WellLinkedJoin(family, EmitRun(tokens, metadata, end, index + |family|, cfg, decodes), index);
      }
    }
  }

  lemma {:induction false} SegmentLinked(segment: Segment, index: nat, cfg: Config, decodes: Text -> bool)
    requires Accepted(cfg)
    ensures WellLinked(EmitSegment(segment, index, cfg, decodes), index)
  {
    hide EmitRun;
    if segment.TextRun? {
      RunLinked(segment.tokens, segment.metadata, 0, index, cfg, decodes);
    }
  }

  lemma {:induction false} EmitLinked(segments: seq<Segment>, index: nat, cfg: Config, decodes: Text -> bool)
    requires Accepted(cfg)
    ensures WellLinked(Emit(segments, index, cfg, decodes), index)
  {
    if segments != [] {
      var first := EmitSegment(segments[0], index, cfg, decodes);
      SegmentLinked(segments[0], index, cfg, decodes);
      EmitLinked(segments[1..], index + |first|, cfg, decodes);
      WellLinkedJoin(first, Emit(segments[1..], index + |first|, cfg, decodes), index);
    }
  }

  /** chunk_index runs 0, 1, 2, ... and every child's parent precedes it and contains its text, whatever is skipped. */
  lemma {:induction false} DualChunksLinked(elements: seq<Element>, cfg: Config, decodes: Text -> bool)
    requires Accepted(cfg)
    ensures WellLinked(DualChunks(elements, cfg, decodes), 0)
  {
    EmitLinked(Segments(elements, [], map[]), 0, cfg, decodes);
  }

  // ---- Conservation ----

  function TopTextOf(c: DocumentChunk): Text {
    if c.level.Child? then [] else c.text
  }

  /** The texts of parents and tables in order: every chunk that is not a child. */
  function TopText(chunks: seq<DocumentChunk>): Text { FlatMap(chunks, TopTextOf) }

  /** All of an element's text, unless it is a page break or an image. */
  ghost predicate KeepsText(kept: Element -> Text) {
    forall e :: kept(e) == if e.kind == PageBreak || e.kind == Image then [] else e.text
  }

  function SegmentText(segment: Segment): Text {
    match segment
    case TextRun(tokens, _) => tokens
    case WholeTable(e) => e.text
  }

  function SegmentTexts(segments: seq<Segment>): Text { FlatMap(segments, SegmentText) }

  /** The segments hold the texts of all elements but page breaks and images, in order. */
  lemma {:induction false} SegmentsConserve(elements: seq<Element>, run: Text, metadata: Metadata,
        kept: Element -> Text)
    requires KeepsText(kept)
    ensures SegmentTexts(Segments(elements, run, metadata)) == run + FlatMap(elements, kept)
  {
    if run != [] {
      FlatMapOne(TextRun(run, metadata), SegmentText);
    }
    assert SegmentTexts(Flush(run, metadata)) == run;
    if elements != [] {
      var e, rest := elements[0], elements[1..];
      if e.kind.PageBreak? || e.kind.Image? {
        SegmentsConserve(rest, run, metadata, kept);
      } else if e.kind.Table? {
        var next := if run == [] then metadata else map[];
        SegmentsConserve(rest, [], next, kept);
        FlatMapOne(WholeTable(e), SegmentText);
        FlatMapJoin(Flush(run, metadata), [WholeTable(e)], SegmentText);
        FlatMapJoin(Flush(run, metadata) + [WholeTable(e)], Segments(rest, [], next), SegmentText);
        Associate(run, e.text, FlatMap(rest, kept));
      } else {
        SegmentsConserve(rest, run + e.text, if run == [] && e.text != [] then e.metadata else metadata, kept);
        Associate(run, e.text, FlatMap(rest, kept));
      }
    }
  }

  lemma {:induction false} ChildChunksKind(ws: seq<Window>, metadata: Metadata, index: nat, parent: nat)
    ensures forall c | c in ChildChunks(ws, metadata, index, parent) :: c.kind.TextElement? && c.level.Child?
  {
    if ws != [] {
      ChildChunksKind(ws[1..], metadata, index + 1, parent);
    }
  }

  lemma {:induction false} FamilyTopText(section: Text, metadata: Metadata, index: nat, cfg: Config,
      decodes: Text -> bool)
    requires Accepted(cfg)
    ensures TopText(Family(section, metadata, index, cfg, decodes)) == section
  {
    var parent, children := ParentChunk(section, metadata, index),
                            ChildChunks(ChildWindows(section, cfg, decodes), metadata, index + 1, index);
    ChildChunksKind(ChildWindows(section, cfg, decodes), metadata, index + 1, index);
    FlatMapEmpty(children, TopTextOf);
    FlatMapOne(parent, TopTextOf);
    FlatMapJoin([parent], children, TopTextOf);
  }

  /** The parent-sized sections of a text run, the units a parent is decoded from. */
  function Sections(tokens: Text, start: nat, cfg: Config): seq<Text>
    requires Accepted(cfg)
    decreases |tokens| - start
  {
    if start >= |tokens| then []
    else
      var end := Min(start + cfg.parentSize, |tokens|);
      [tokens[start..end]] + Sections(tokens, end, cfg)
  }

  function ParentSections(segments: seq<Segment>, cfg: Config): seq<Text>
    requires Accepted(cfg)
  {
    if segments == [] then []
    else (if segments[0].TextRun? then Sections(segments[0].tokens, 0, cfg) else [])
         + ParentSections(segments[1..], cfg)
  }

  ghost predicate Decodable(sections: seq<Text>, decodes: Text -> bool) {
    forall s | s in sections :: decodes(s)
  }

  lemma {:induction false} DecodableJoin(a: seq<Text>, b: seq<Text>, decodes: Text -> bool)
    ensures Decodable(a + b, decodes) <==> Decodable(a, decodes) && Decodable(b, decodes)
  {
    if Decodable(a + b, decodes) {
      assert forall s | s in a :: s in a + b;
      assert forall s | s in b :: s in a + b;
    }
  }

  /** A section that decodes adds its text; one that does not adds nothing. */
  lemma {:induction false} SectionText(tokens: Text, metadata: Metadata, start: nat, index: nat, cfg: Config,
      decodes: Text -> bool) returns (next: nat)
    requires Accepted(cfg) && start < |tokens|
    ensures var end := Min(start + cfg.parentSize, |tokens|);
      TopText(EmitRun(tokens, metadata, start, index, cfg, decodes))
      == (if decodes(tokens[start..end]) then tokens[start..end] else [])
         + TopText(EmitRun(tokens, metadata, end, next, cfg, decodes))
  {
    hide Family;
    var end := Min(start + cfg.parentSize, |tokens|);
    var section := tokens[start..end];
    if decodes(section) {
      var family := Family(section, metadata, index, cfg, decodes);
      next := index + |family|;
      FamilyTopText(section, metadata, index, cfg, decodes);
      FlatMapJoin(family, EmitRun(tokens, metadata, end, next, cfg, decodes), TopTextOf);
    } else {
      next := index;
    }
  }

  lemma {:induction false} NothingToConserve(tokens: Text, metadata: Metadata, index: nat, cfg: Config,
      decodes: Text -> bool)
    requires Accepted(cfg)
    ensures TopText(EmitRun(tokens, metadata, |tokens|, index, cfg, decodes)) == []
    ensures Decodable(Sections(tokens, |tokens|, cfg), decodes)
  {
  }

  lemma {:induction false} DecodableOne(section: Text, decodes: Text -> bool)
    ensures Decodable([section], decodes) <==> decodes(section)
  {
    assert section in [section];
  }

  lemma {:induction false} RunConserves(tokens: Text, metadata: Metadata, start: nat, index: nat, cfg: Config,
      decodes: Text -> bool)
    requires Accepted(cfg) && start <= |tokens|
    ensures var top := TopText(EmitRun(tokens, metadata, start, index, cfg, decodes));
      && |top| <= |tokens| - start
      && (Decodable(Sections(tokens, start, cfg), decodes) ==> top == tokens[start..])
      && (!Decodable(Sections(tokens, start, cfg), decodes) ==> |top| < |tokens| - start)
    decreases |tokens| - start
  {
    hide EmitRun, TopText, Decodable;
    if start == |tokens| {
      NothingToConserve(tokens, metadata, index, cfg, decodes);
    } else {
      var end := Min(start + cfg.parentSize, |tokens|);
      var section := tokens[start..end];
      var next := SectionText(tokens, metadata, start, index, cfg, decodes);
      RunConserves(tokens, metadata, end, next, cfg, decodes);
      DecodableJoin([section], Sections(tokens, end, cfg), decodes);
      DecodableOne(section, decodes);
      assert tokens[start..] == section + tokens[end..];
    }
  }

  lemma {:induction false} EmitConserves(segments: seq<Segment>, index: nat, cfg: Config, decodes: Text -> bool)
    requires Accepted(cfg)
    ensures var top, all := TopText(Emit(segments, index, cfg, decodes)), SegmentTexts(segments);
      && |top| <= |all|
      && (Decodable(ParentSections(segments, cfg), decodes) ==> top == all)
      && (!Decodable(ParentSections(segments, cfg), decodes) ==> |top| < |all|)
  {
    hide EmitRun, Sections;
    if segments != [] {
      var first := EmitSegment(segments[0], index, cfg, decodes);
      assert Emit(segments, index, cfg, decodes) == first + Emit(segments[1..], index + |first|, cfg, decodes);
      var sections := if segments[0].TextRun? then Sections(segments[0].tokens, 0, cfg) else [];
      EmitConserves(segments[1..], index + |first|, cfg, decodes);
      FlatMapJoin(first, Emit(segments[1..], index + |first|, cfg, decodes), TopTextOf);
      DecodableJoin(sections, ParentSections(segments[1..], cfg), decodes);
      match segments[0] {
        case WholeTable(e) =>
          FlatMapOne(TableChunk(e, index), TopTextOf);
        case TextRun(tokens, metadata) =>
          RunConserves(tokens, metadata, 0, index, cfg, decodes);
      }
    }
  }

  /**
   * Parents and tables in order give back the text of every element but page breaks and images, exactly
   * when every parent section decodes.
   */
  lemma {:induction false} DualConservation(elements: seq<Element>, cfg: Config, decodes: Text -> bool,
      kept: Element -> Text, published: DocumentChunk -> Text)
    requires Accepted(cfg)
    requires forall e :: kept(e) == if e.kind == PageBreak || e.kind == Image then [] else e.text
    requires forall c :: published(c) == if c.level == Child then [] else c.text
    ensures FlatMap(DualChunks(elements, cfg, decodes), published) == FlatMap(elements, kept)
       <==> Decodable(ParentSections(Segments(elements, [], map[]), cfg), decodes)
  {
    var segments := Segments(elements, [], map[]);
    SegmentsConserve(elements, [], map[], kept);
    EmitConserves(segments, 0, cfg, decodes);
    FlatMapSame(DualChunks(elements, cfg, decodes), published, TopTextOf);
  }

  /** An undecodable section costs itself and no other. */
  lemma {:induction false} RunKeepsDecodable(tokens: Text, metadata: Metadata, start: nat, index: nat, cfg: Config,
      decodes: Text -> bool, keep: Text -> Text)
    requires Accepted(cfg) && start <= |tokens|
    requires forall s :: keep(s) == if decodes(s) then s else []
    ensures TopText(EmitRun(tokens, metadata, start, index, cfg, decodes))
         == FlatMap(Sections(tokens, start, cfg), keep)
    decreases |tokens| - start
  {
    hide EmitRun, TopText;
    if start == |tokens| {
      NothingToConserve(tokens, metadata, index, cfg, decodes);
    } else {
      var end := Min(start + cfg.parentSize, |tokens|);
      var next := SectionText(tokens, metadata, start, index, cfg, decodes);
      RunKeepsDecodable(tokens, metadata, end, next, cfg, decodes, keep);
      assert Sections(tokens, start, cfg)[1..] == Sections(tokens, end, cfg);
    }
  }

  lemma {:induction false} EmitKeepsDecodable(segments: seq<Segment>, index: nat, cfg: Config, decodes: Text -> bool,
      keep: Text -> Text, kept: Segment -> Text)
    requires Accepted(cfg)
    requires forall s :: keep(s) == if decodes(s) then s else []
    requires forall s :: kept(s) == if s.TextRun? then FlatMap(Sections(s.tokens, 0, cfg), keep) else s.element.text
    ensures TopText(Emit(segments, index, cfg, decodes)) == FlatMap(segments, kept)
  {
    hide EmitRun, EmitSegment, Emit, Sections, FlatMap;
    EmitUnfold(segments, index, cfg, decodes);
    FlatMapUnfold(Emit(segments, index, cfg, decodes), TopTextOf);
    FlatMapUnfold(segments, kept);
    if segments != [] {
      var first := EmitSegment(segments[0], index, cfg, decodes);
      EmitKeepsDecodable(segments[1..], index + |first|, cfg, decodes, keep, kept);
      FlatMapJoin(first, Emit(segments[1..], index + |first|, cfg, decodes), TopTextOf);
      SegmentKeepsDecodable(segments[0], index, cfg, decodes, keep);
    }
  }

  lemma {:induction false} SegmentKeepsDecodable(segment: Segment, index: nat, cfg: Config, decodes: Text -> bool,
      keep: Text -> Text)
    requires Accepted(cfg)
    requires forall s :: keep(s) == if decodes(s) then s else []
    ensures TopText(EmitSegment(segment, index, cfg, decodes))
         == if segment.TextRun? then FlatMap(Sections(segment.tokens, 0, cfg), keep) else segment.element.text
  {
    hide EmitRun, Sections;
    match segment
    case WholeTable(e) => FlatMapOne(TableChunk(e, index), TopTextOf);
    case TextRun(tokens, metadata) => RunKeepsDecodable(tokens, metadata, 0, index, cfg, decodes, keep);
  }

  lemma {:induction false} EmitUnfold(segments: seq<Segment>, index: nat, cfg: Config, decodes: Text -> bool)
    requires Accepted(cfg)
    ensures Emit(segments, index, cfg, decodes)
         == if segments == [] then []
            else var first := EmitSegment(segments[0], index, cfg, decodes);
              first + Emit(segments[1..], index + |first|, cfg, decodes)
  {
  }

  /** The parents' texts, in order. */
  function ParentTextOf(c: DocumentChunk): seq<Text> {
    if c.level.Parent? then [c.text] else []
  }

  lemma {:induction false} FamilyParent(section: Text, metadata: Metadata, index: nat, cfg: Config,
      decodes: Text -> bool)
    requires Accepted(cfg)
    ensures FlatMap(Family(section, metadata, index, cfg, decodes), ParentTextOf) == [section]
  {
    var parent, children := ParentChunk(section, metadata, index),
                            ChildChunks(ChildWindows(section, cfg, decodes), metadata, index + 1, index);
    ChildChunksKind(ChildWindows(section, cfg, decodes), metadata, index + 1, index);
    FlatMapEmpty(children, ParentTextOf);
    FlatMapOne(parent, ParentTextOf);
    FlatMapJoin([parent], children, ParentTextOf);
  }

  /** A run's parents are exactly its decodable sections. */
  lemma {:induction false} RunParents(tokens: Text, metadata: Metadata, start: nat, index: nat, cfg: Config,
      decodes: Text -> bool, keep: Text -> seq<Text>)
    requires Accepted(cfg) && start <= |tokens|
    requires forall s :: keep(s) == if decodes(s) then [s] else []
    ensures FlatMap(EmitRun(tokens, metadata, start, index, cfg, decodes), ParentTextOf)
         == FlatMap(Sections(tokens, start, cfg), keep)
    decreases |tokens| - start
  {
    hide Family, EmitRun, Sections, ParentTextOf, FlatMap;
    if start == |tokens| {
      RunOver(tokens, metadata, index, cfg, decodes);
      FlatMapUnfold([], ParentTextOf);
      FlatMapUnfold([], keep);
    } else {
      var end := Min(start + cfg.parentSize, |tokens|);
      var section := tokens[start..end];
      RunStep(tokens, metadata, start, index, cfg, decodes);
      FlatMapOne(section, keep);
      FlatMapJoin([section], Sections(tokens, end, cfg), keep);
      if decodes(section) {
        var family := Family(section, metadata, index, cfg, decodes);
        FamilyParent(section, metadata, index, cfg, decodes);
        FlatMapJoin(family, EmitRun(tokens, metadata, end, index + |family|, cfg, decodes), ParentTextOf);
        RunParents(tokens, metadata, end, index + |family|, cfg, decodes, keep);
      } else {
        RunParents(tokens, metadata, end, index, cfg, decodes, keep);
      }
    }
  }

  lemma {:induction false} RunOver(tokens: Text, metadata: Metadata, index: nat, cfg: Config, decodes: Text -> bool)
    requires Accepted(cfg)
    ensures EmitRun(tokens, metadata, |tokens|, index, cfg, decodes) == [] && Sections(tokens, |tokens|, cfg) == []
  {
  }

  lemma {:induction false} RunStep(tokens: Text, metadata: Metadata, start: nat, index: nat, cfg: Config,
      decodes: Text -> bool)
    requires Accepted(cfg) && start < |tokens|
    ensures var end := Min(start + cfg.parentSize, |tokens|);
      var section := tokens[start..end];
      && Sections(tokens, start, cfg) == [section] + Sections(tokens, end, cfg)
      && EmitRun(tokens, metadata, start, index, cfg, decodes)
         == if decodes(section) then
              var family := Family(section, metadata, index, cfg, decodes);
              family + EmitRun(tokens, metadata, end, index + |family|, cfg, decodes)
            else EmitRun(tokens, metadata, end, index, cfg, decodes)
  {
  }

  lemma {:induction false} EmitParentTexts(segments: seq<Segment>, index: nat, cfg: Config, decodes: Text -> bool,
      keep: Text -> seq<Text>)
    requires Accepted(cfg)
    requires forall s :: keep(s) == if decodes(s) then [s] else []
    ensures FlatMap(Emit(segments, index, cfg, decodes), ParentTextOf) == FlatMap(ParentSections(segments, cfg), keep)
  {
    hide EmitRun, EmitSegment, Emit, Sections, FlatMap;
    EmitUnfold(segments, index, cfg, decodes);
    if segments == [] {
      FlatMapUnfold([], ParentTextOf);
      FlatMapUnfold([], keep);
    } else {
      var first := EmitSegment(segments[0], index, cfg, decodes);
      var sections := if segments[0].TextRun? then Sections(segments[0].tokens, 0, cfg) else [];
      EmitParentTexts(segments[1..], index + |first|, cfg, decodes, keep);
      FlatMapJoin(first, Emit(segments[1..], index + |first|, cfg, decodes), ParentTextOf);
      FlatMapJoin(sections, ParentSections(segments[1..], cfg), keep);
      SegmentParents(segments[0], index, cfg, decodes, keep);
    }
  }

  lemma {:induction false} SegmentParents(segment: Segment, index: nat, cfg: Config, decodes: Text -> bool,
      keep: Text -> seq<Text>)
    requires Accepted(cfg)
    requires forall s :: keep(s) == if decodes(s) then [s] else []
    ensures FlatMap(EmitSegment(segment, index, cfg, decodes), ParentTextOf)
         == FlatMap(if segment.TextRun? then Sections(segment.tokens, 0, cfg) else [], keep)
  {
    hide EmitRun, Sections;
    match segment
    case WholeTable(e) => FlatMapOne(TableChunk(e, index), ParentTextOf);
    case TextRun(tokens, metadata) => RunParents(tokens, metadata, 0, index, cfg, decodes, keep);
  }

  /** The parents of a document are exactly the decodable sections of its text runs, in order. */
  lemma {:induction false} DualParents(elements: seq<Element>, cfg: Config, decodes: Text -> bool,
      parents: DocumentChunk -> seq<Text>, keep: Text -> seq<Text>)
    requires Accepted(cfg)
    requires forall c :: parents(c) == if c.level == Parent then [c.text] else []
    requires forall s :: keep(s) == if decodes(s) then [s] else []
    ensures FlatMap(DualChunks(elements, cfg, decodes), parents)
         == FlatMap(ParentSections(Segments(elements, [], map[]), cfg), keep)
  {
    EmitParentTexts(Segments(elements, [], map[]), 0, cfg, decodes, keep);
    FlatMapSame(DualChunks(elements, cfg, decodes), parents, ParentTextOf);
  }

  // ---- What the sections and the chunks look like ----

  /** A run is cut into sections of the parent size, the last one perhaps shorter, and nothing is lost between them. */
  lemma {:induction false} SectionsExact(tokens: Text, start: nat, cfg: Config)
    requires Accepted(cfg) && start <= |tokens|
    ensures var sections := Sections(tokens, start, cfg);
      && Concat(sections) == tokens[start..]
      && (forall i | 0 <= i < |sections| :: 0 < |sections[i]| <= cfg.parentSize)
      && (forall i | 0 <= i < |sections| - 1 :: |sections[i]| == cfg.parentSize)
    decreases |tokens| - start
  {
    if start < |tokens| {
      var end := Min(start + cfg.parentSize, |tokens|);
      SectionsExact(tokens, end, cfg);
      assert tokens[start..] == tokens[start..end] + tokens[end..];
      if end == |tokens| {
        assert Sections(tokens, end, cfg) == [];
      }
    }
  }

  /** A table, or a text of bounded size that decodes, parent or child. */
  ghost predicate WellShaped(c: DocumentChunk, cfg: Config, decodes: Text -> bool) {
    || (c.kind == Table && c.level == NoLevel && c.parent == None && c.sources == {})
    || (&& c.kind == TextElement && c.format == "text" && c.sources == {} && c.parent.Some? && decodes(c.text)
        && (   (c.level == Parent && |c.text| <= cfg.parentSize && c.parent == Some(c.index))
            || (c.level == Child && |c.text| <= cfg.childSize)))
  }

  lemma {:induction false} ChildrenShaped(section: Text, start: nat, number: nat, metadata: Metadata, index: nat,
      parent: nat, cfg: Config, decodes: Text -> bool)
    requires Accepted(cfg)
    ensures forall c | c in ChildChunks(Windows(section, cfg.childSize, cfg.childOverlap, decodes, start, number),
                                        metadata, index, parent) ::
      WellShaped(c, cfg, decodes) && c.metadata == metadata
    decreases |section| - start
  {
    if start < |section| {
      var end := Min(start + cfg.childSize, |section|);
      var next := start + cfg.childSize - cfg.childOverlap;
      var more := if decodes(section[start..end]) then index + 1 else index;
      ChildrenShaped(section, next, number + 1, metadata, more, parent, cfg, decodes);
    }
  }

  lemma {:induction false} RunShaped(tokens: Text, metadata: Metadata, start: nat, index: nat, cfg: Config,
      decodes: Text -> bool)
    requires Accepted(cfg)
    ensures forall c | c in EmitRun(tokens, metadata, start, index, cfg, decodes) ::
      WellShaped(c, cfg, decodes) && c.kind == TextElement && c.metadata == metadata
    decreases |tokens| - start
  {
    hide Windows;
    if start < |tokens| {
      var end := Min(start + cfg.parentSize, |tokens|);
      var section := tokens[start..end];
      ChildrenShaped(section, 0, 0, metadata, index + 1, index, cfg, decodes);
      ChildChunksKind(ChildWindows(section, cfg, decodes), metadata, index + 1, index);
      var size := |Family(section, metadata, index, cfg, decodes)|;
      RunShaped(tokens, metadata, end, if decodes(section) then index + size else index, cfg, decodes);
    }
  }

  /** The metadata of a run is that of the first element with text in it. */
  ghost predicate OpensRun(e: Element, segment: Segment) {
    && segment.TextRun? && e.text != [] && e.text <= segment.tokens && e.metadata == segment.metadata
    && e.kind !in {Table, PageBreak, Image}
  }

  lemma {:induction false} SegmentsOpened(elements: seq<Element>, opener: Option<Element>, run: Text,
        metadata: Metadata)
    requires if run == [] then opener == None else opener.Some? && OpensRun(opener.value, TextRun(run, metadata))
    ensures forall s | s in Segments(elements, run, metadata) && s.TextRun? ::
      exists e :: (e in elements || opener == Some(e)) && OpensRun(e, s)
    ensures forall s | s in Segments(elements, run, metadata) && s.WholeTable? ::
      s.element in elements && s.element.kind == Table
  {
    if elements == [] {
      assert run != [] ==> OpensRun(opener.value, TextRun(run, metadata));
    } else {
      var e, rest := elements[0], elements[1..];
      if e.kind.PageBreak? || e.kind.Image? {
        SegmentsOpened(rest, opener, run, metadata);
      } else if e.kind.Table? {
        SegmentsOpened(rest, None, [], if run == [] then metadata else map[]);
        assert run != [] ==> OpensRun(opener.value, TextRun(run, metadata));
      } else if run == [] && e.text == [] {
        assert run + e.text == [];
        SegmentsOpened(rest, None, run + e.text, metadata);
      } else {
        var now := if run == [] then e else opener.value;
        SegmentsOpened(rest, Some(now), run + e.text, now.metadata);
      }
    }
  }

  /** No two runs stand side by side, and none is empty. */
  ghost predicate Alternate(segments: seq<Segment>) {
    && (forall i, j | 0 <= i < j < |segments| && j == i + 1 :: segments[i].WholeTable? || segments[j].WholeTable?)
    && (forall s | s in segments :: s.TextRun? ==> s.tokens != [])
  }

  /** Text is one run up to the next table. */
  lemma {:induction false} RunsSeparated(elements: seq<Element>, run: Text, metadata: Metadata)
    ensures Alternate(Segments(elements, run, metadata))
  {
    if elements != [] {
      var e, rest := elements[0], elements[1..];
      if e.kind.PageBreak? || e.kind.Image? {
        RunsSeparated(rest, run, metadata);
      } else if e.kind.Table? {
        var next := if run == [] then metadata else map[];
        RunsSeparated(rest, [], next);
        TableSeparates(Flush(run, metadata), e, Segments(rest, [], next));
      } else {
        RunsSeparated(rest, run + e.text, if run == [] && e.text != [] then e.metadata else metadata);
      }
    }
  }

  lemma {:induction false} TableSeparates(a: seq<Segment>, e: Element, b: seq<Segment>)
    requires |a| <= 1 && Alternate(a) && Alternate(b)
    ensures Alternate(a + [WholeTable(e)] + b)
  {
    var all, k := a + [WholeTable(e)] + b, |a| + 1;
    assert forall i | k <= i < |all| :: all[i] == b[i - k];
  }

  lemma {:induction false} EmitShaped(segments: seq<Segment>, index: nat, cfg: Config, decodes: Text -> bool)
    requires Accepted(cfg)
    ensures forall c | c in Emit(segments, index, cfg, decodes) ::
      exists s :: s in segments && ChunkFrom(c, s, cfg, decodes)
  {
    hide WellShaped, EmitRun;
    if segments != [] {
      var s := segments[0];
      var first := EmitSegment(s, index, cfg, decodes);
      assert Emit(segments, index, cfg, decodes) == first + Emit(segments[1..], index + |first|, cfg, decodes);
      EmitShaped(segments[1..], index + |first|, cfg, decodes);
      if s.TextRun? {
        RunShaped(s.tokens, s.metadata, 0, index, cfg, decodes);
        assert forall c | c in first :: ChunkFrom(c, s, cfg, decodes);
      } else {
        TableShaped(s.element, index, cfg, decodes);
        assert forall c | c in first :: ChunkFrom(c, s, cfg, decodes);
      }
    }
  }

  ghost predicate ChunkFrom(c: DocumentChunk, s: Segment, cfg: Config, decodes: Text -> bool) {
    match s
    case TextRun(_, metadata) => WellShaped(c, cfg, decodes) && c.kind == TextElement && c.metadata == metadata
    case WholeTable(_) => WellShaped(c, cfg, decodes) && c.kind == Table
  }

  lemma {:induction false} TableShaped(e: Element, index: nat, cfg: Config, decodes: Text -> bool)
    ensures WellShaped(TableChunk(e, index), cfg, decodes) && TableChunk(e, index).kind == Table
  {
  }

  /**
   * Every chunk is a table without a level, or a decoded text no longer than its level allows, marked as
   * text and carrying the metadata of an element whose text opens its run.
   */
  lemma {:induction false} DualChunksShaped(elements: seq<Element>, cfg: Config, decodes: Text -> bool,
        c: DocumentChunk)
    requires Accepted(cfg) && c in DualChunks(elements, cfg, decodes)
    ensures WellShaped(c, cfg, decodes)
    ensures c.kind == TextElement ==>
      exists e :: e in elements && e.text != [] && e.metadata == c.metadata && e.kind !in {Table, PageBreak, Image}
  {
    hide WellShaped;
    var segments := Segments(elements, [], map[]);
    EmitShaped(segments, 0, cfg, decodes);
    SegmentsOpened(elements, None, [], map[]);
    var s :| s in segments && ChunkFrom(c, s, cfg, decodes);
    if s.TextRun? {
      var e :| e in elements && OpensRun(e, s);
    }
  }

  // ---- Tables ----

  /** A table as it is published: whole text, adjusted format, own metadata. */
  datatype TableContent = TableContent(text: Text, format: string, metadata: Metadata)

  function TableIn(c: DocumentChunk): seq<TableContent> {
    if c.kind.Table? then [TableContent(c.text, c.format, c.metadata)] else []
  }

  function TablesIn(chunks: seq<DocumentChunk>): seq<TableContent> { FlatMap(chunks, TableIn) }

  function TableOf(e: Element): seq<TableContent> {
    if e.kind.Table? then [TableContent(e.text, if e.format == "text" then "html" else e.format, e.metadata)] else []
  }

  function TablesOf(elements: seq<Element>): seq<TableContent> { FlatMap(elements, TableOf) }

  lemma {:induction false} RunKind(tokens: Text, metadata: Metadata, start: nat, index: nat, cfg: Config,
      decodes: Text -> bool)
    requires Accepted(cfg)
    ensures forall c | c in EmitRun(tokens, metadata, start, index, cfg, decodes) :: c.kind.TextElement?
    decreases |tokens| - start
  {
    if start < |tokens| {
      var end := Min(start + cfg.parentSize, |tokens|);
      var section := tokens[start..end];
      ChildChunksKind(ChildWindows(section, cfg, decodes), metadata, index + 1, index);
      var size := |Family(section, metadata, index, cfg, decodes)|;
      RunKind(tokens, metadata, end, if decodes(section) then index + size else index, cfg, decodes);
    }
  }

  lemma {:induction false} TablesInJoin(a: seq<DocumentChunk>, b: seq<DocumentChunk>)
    ensures TablesIn(a + b) == TablesIn(a) + TablesIn(b)
  {
    FlatMapJoin(a, b, TableIn);
  }

  lemma {:induction false} NoTables(chunks: seq<DocumentChunk>)
    requires forall c | c in chunks :: c.kind.TextElement?
    ensures TablesIn(chunks) == []
  {
    FlatMapEmpty(chunks, TableIn);
  }

  /** Flushing a run emits its chunks first; none of them is a table. */
  lemma {:induction false} FlushTables(run: Text, metadata: Metadata, rest: seq<Segment>, index: nat, cfg: Config,
      decodes: Text -> bool)
    returns (next: nat)
    requires Accepted(cfg)
    ensures TablesIn(Emit(Flush(run, metadata) + rest, index, cfg, decodes)) == TablesIn(Emit(rest, next, cfg, decodes))
  {
    hide Emit, EmitRun, TablesIn;
    if run == [] {
      next := index;
      assert Flush(run, metadata) + rest == rest;
    } else {
      var chunks := EmitRun(run, metadata, 0, index, cfg, decodes);
      next := index + |chunks|;
      EmitCons(TextRun(run, metadata), rest, index, cfg, decodes);
      RunKind(run, metadata, 0, index, cfg, decodes);
      NoTables(chunks);
      TablesInJoin(chunks, Emit(rest, next, cfg, decodes));
    }
  }

  lemma {:induction false} TableFirst(e: Element, rest: seq<Segment>, index: nat, cfg: Config, decodes: Text -> bool)
    requires Accepted(cfg)
    ensures TablesIn(Emit([WholeTable(e)] + rest, index, cfg, decodes))
         == TableIn(TableChunk(e, index)) + TablesIn(Emit(rest, index + 1, cfg, decodes))
  {
    EmitCons(WholeTable(e), rest, index, cfg, decodes);
    FlatMapOne(TableChunk(e, index), TableIn);
    FlatMapJoin([TableChunk(e, index)], Emit(rest, index + 1, cfg, decodes), TableIn);
  }

  lemma {:induction false} NoSegments(index: nat, cfg: Config, decodes: Text -> bool)
    requires Accepted(cfg)
    ensures TablesIn(Emit([], index, cfg, decodes)) == []
  {
  }

  lemma {:induction false} EmitTables(elements: seq<Element>, run: Text, metadata: Metadata, index: nat, cfg: Config,
      decodes: Text -> bool)
    requires Accepted(cfg)
    ensures TablesIn(Emit(Segments(elements, run, metadata), index, cfg, decodes)) == TablesOf(elements)
    decreases |elements|
  {
    hide Emit, EmitRun;
    if elements == [] {
      var next := FlushTables(run, metadata, [], index, cfg, decodes);
      assert Flush(run, metadata) + [] == Flush(run, metadata);
      NoSegments(next, cfg, decodes);
    } else {
      var e, rest := elements[0], elements[1..];
      if e.kind.PageBreak? || e.kind.Image? {
        EmitTables(rest, run, metadata, index, cfg, decodes);
      } else if e.kind.Table? {
        var after := if run == [] then metadata else map[];
        var tail := Segments(rest, [], after);
        var next := FlushTables(run, metadata, [WholeTable(e)] + tail, index, cfg, decodes);
        assert Flush(run, metadata) + [WholeTable(e)] + tail == Flush(run, metadata) + ([WholeTable(e)] + tail);
        TableFirst(e, tail, next, cfg, decodes);
        EmitTables(rest, [], after, next + 1, cfg, decodes);
      } else {
        EmitTables(rest, run + e.text, if run == [] && e.text != [] then e.metadata else metadata, index, cfg, decodes);
      }
    }
  }

  /**
   * Every table becomes exactly one chunk, whole and in order, and nothing else is emitted as a table: its
   * text and metadata as they are, its format too unless that is plain text, which becomes html.
   */
  lemma {:induction false} TablesUnsplit(elements: seq<Element>, cfg: Config, decodes: Text -> bool,
      given: Element -> seq<TableContent>, published: DocumentChunk -> seq<TableContent>)
    requires Accepted(cfg)
    requires forall e :: given(e) == if e.kind == Table
      then [TableContent(e.text, if e.format == "text" then "html" else e.format, e.metadata)] else []
    requires forall c :: published(c) == if c.kind == Table then [TableContent(c.text, c.format, c.metadata)] else []
    ensures FlatMap(DualChunks(elements, cfg, decodes), published) == FlatMap(elements, given)
  {
    EmitTables(elements, [], map[], 0, cfg, decodes);
    FlatMapSame(elements, given, TableOf);
    FlatMapSame(DualChunks(elements, cfg, decodes), published, TableIn);
  }

  // ---- Children cover their parent ----

  function ChildTextOf(p: nat): DocumentChunk -> seq<Text> {
    (c: DocumentChunk) => if c.level.Child? && c.parent == Some(p) then [c.text] else []
  }

  /** The texts of the children of the parent with index p, in order. */
  function ChildTexts(chunks: seq<DocumentChunk>, p: nat): seq<Text> { FlatMap(chunks, ChildTextOf(p)) }

  /** In a well-linked sequence no child points outside it. */
  lemma {:induction false} ForeignParent(chunks: seq<DocumentChunk>, base: nat, p: nat)
    requires WellLinked(chunks, base) && (p < base || p >= base + |chunks|)
    ensures ChildTexts(chunks, p) == []
  {
    forall c | c in chunks ensures ChildTextOf(p)(c) == [] {
      var i :| 0 <= i < |chunks| && chunks[i] == c;
      assert WellLinkedAt(chunks, base, i);
    }
    FlatMapEmpty(chunks, ChildTextOf(p));
  }

  lemma {:induction false} ChildChunkTexts(ws: seq<Window>, metadata: Metadata, index: nat, parent: nat)
    ensures ChildTexts(ChildChunks(ws, metadata, index, parent), parent) == WindowTexts(ws)
  {
    if ws != [] {
      ChildChunkTexts(ws[1..], metadata, index + 1, parent);
      assert ChildChunks(ws, metadata, index, parent)[1..] == ChildChunks(ws[1..], metadata, index + 1, parent);
    }
  }

  lemma {:induction false} FamilyChildTexts(section: Text, metadata: Metadata, index: nat, cfg: Config,
      decodes: Text -> bool)
    requires Accepted(cfg)
    ensures ChildTexts(Family(section, metadata, index, cfg, decodes), index)
         == WindowTexts(ChildWindows(section, cfg, decodes))
  {
    ChildChunkTexts(ChildWindows(section, cfg, decodes), metadata, index + 1, index);
    assert Family(section, metadata, index, cfg, decodes)[1..]
        == ChildChunks(ChildWindows(section, cfg, decodes), metadata, index + 1, index);
  }

  ghost predicate ChildrenAreWindows(chunks: seq<DocumentChunk>, base: nat, i: nat, cfg: Config, decodes: Text -> bool)
    requires Accepted(cfg) && i < |chunks|
  {
    chunks[i].level.Parent? ==> ChildTexts(chunks, base + i) == WindowTexts(ChildWindows(chunks[i].text, cfg, decodes))
  }

  lemma {:induction false} ChildTextsJoin(a: seq<DocumentChunk>, b: seq<DocumentChunk>, p: nat)
    ensures ChildTexts(a + b, p) == ChildTexts(a, p) + ChildTexts(b, p)
  {
    FlatMapJoin(a, b, ChildTextOf(p));
  }

  lemma {:induction false} ChildrenAreWindowsJoin(a: seq<DocumentChunk>, b: seq<DocumentChunk>, base: nat, i: nat,
      cfg: Config, decodes: Text -> bool)
    requires Accepted(cfg) && WellLinked(a, base) && WellLinked(b, base + |a|) && i < |a| + |b|
    requires i < |a| ==> ChildrenAreWindows(a, base, i, cfg, decodes)
    requires i >= |a| ==> ChildrenAreWindows(b, base + |a|, i - |a|, cfg, decodes)
    ensures ChildrenAreWindows(a + b, base, i, cfg, decodes)
  {
    hide ChildWindows, WindowTexts, WellLinked, ChildTexts;
    ChildTextsJoin(a, b, base + i);
    if i < |a| {
      ForeignParent(b, base + |a|, base + i);
    } else {
      ForeignParent(a, base, base + i);
    }
  }

  lemma {:induction false} FamilyChildren(section: Text, metadata: Metadata, index: nat, cfg: Config,
      decodes: Text -> bool, i: nat)
    requires Accepted(cfg) && i < |Family(section, metadata, index, cfg, decodes)|
    ensures ChildrenAreWindows(Family(section, metadata, index, cfg, decodes), index, i, cfg, decodes)
  {
    FamilyChildTexts(section, metadata, index, cfg, decodes);
    if i > 0 {
      ChildChunksAt(ChildWindows(section, cfg, decodes), metadata, index + 1, index, i - 1);
    }
  }

  lemma {:induction false} RunChildren(tokens: Text, metadata: Metadata, start: nat, index: nat, cfg: Config,
      decodes: Text -> bool, i: nat)
    requires Accepted(cfg) && i < |EmitRun(tokens, metadata, start, index, cfg, decodes)|
    ensures ChildrenAreWindows(EmitRun(tokens, metadata, start, index, cfg, decodes), index, i, cfg, decodes)
    decreases |tokens| - start
  {
    hide Family, WellLinked, ChildrenAreWindows;
    var end := Min(start + cfg.parentSize, |tokens|);
    var section := tokens[start..end];
    if !decodes(section) {
      RunChildren(tokens, metadata, end, index, cfg, decodes, i);
    } else {
      var family := Family(section, metadata, index, cfg, decodes);
      var rest := EmitRun(tokens, metadata, end, index + |family|, cfg, decodes);
      FamilyLinked(section, metadata, index, cfg, decodes);
      RunLinked(tokens, metadata, end, index + |family|, cfg, decodes);
      if i < |family| {
        FamilyChildren(section, metadata, index, cfg, decodes, i);
      } else {
        RunChildren(tokens, metadata, end, index + |family|, cfg, decodes, i - |family|);
      }
      ChildrenAreWindowsJoin(family, rest, index, i, cfg, decodes);
    }
  }

  lemma {:induction false} SegmentChildren(segment: Segment, index: nat, cfg: Config, decodes: Text -> bool, i: nat)
    requires Accepted(cfg) && i < |EmitSegment(segment, index, cfg, decodes)|
    ensures ChildrenAreWindows(EmitSegment(segment, index, cfg, decodes), index, i, cfg, decodes)
  {
    hide EmitRun, ChildTexts, WindowTexts;
    if segment.TextRun? {
      RunChildren(segment.tokens, segment.metadata, 0, index, cfg, decodes, i);
    }
  }

  lemma {:induction false} EmitChildrenAreWindows(segments: seq<Segment>, index: nat, cfg: Config,
      decodes: Text -> bool, i: nat)
    requires Accepted(cfg) && i < |Emit(segments, index, cfg, decodes)|
    ensures ChildrenAreWindows(Emit(segments, index, cfg, decodes), index, i, cfg, decodes)
  {
    hide EmitSegment, WellLinked, ChildrenAreWindows;
    var first := EmitSegment(segments[0], index, cfg, decodes);
    var rest := Emit(segments[1..], index + |first|, cfg, decodes);
    SegmentLinked(segments[0], index, cfg, decodes);
    EmitLinked(segments[1..], index + |first|, cfg, decodes);
    if i < |first| {
      SegmentChildren(segments[0], index, cfg, decodes, i);
    } else {
      EmitChildrenAreWindows(segments[1..], index + |first|, cfg, decodes, i - |first|);
    }
    ChildrenAreWindowsJoin(first, rest, index, i, cfg, decodes);
  }

  /**
   * The children of a parent, laid over each other, are the parent's text exactly when each of their
   * windows decodes.
   */
  lemma {:induction false} ChildrenCoverParent(elements: seq<Element>, cfg: Config, decodes: Text -> bool, i: nat)
    requires Accepted(cfg) && i < |DualChunks(elements, cfg, decodes)|
    requires DualChunks(elements, cfg, decodes)[i].level.Parent?
    ensures var chunks := DualChunks(elements, cfg, decodes);
      Overlay(ChildTexts(chunks, i), cfg.childOverlap) == chunks[i].text
      <==> AllDecode(Tiling(chunks[i].text, cfg.childSize, cfg.childOverlap, 0, 0), decodes)
  {
    var parent := DualChunks(elements, cfg, decodes)[i].text;
    EmitChildrenAreWindows(Segments(elements, [], map[]), 0, cfg, decodes, i);
    WindowsReconstructIff(parent, cfg.childSize, cfg.childOverlap, decodes);
  }
}
