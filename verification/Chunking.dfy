/**
 * The two chunking strategies over token sequences.
 *
 * A text is the token sequence its encoder gives, so the text of a chunk is the slice it was
 * decoded from. `decodes` says which slices the decoder accepts: the branches that log and skip
 * an undecodable slice are kept.
 */
module Chunking {
  import opened Support

  type Token = int
  type Text = seq<Token>
  type Metadata = map<string, string>

  datatype ElementKind =
    | TextElement | Title | ListElement | Header | Footer | FigureCaption | Formula
    | Table | PageBreak | Image

  datatype Element = Element(kind: ElementKind, text: Text, format: string, metadata: Metadata)

  datatype Level = NoLevel | Parent | Child

  /** `parent` is the chunker-local hierarchy id: a parent carries its own, its children repeat it. */
  datatype DocumentChunk = DocumentChunk(
    kind: ElementKind, text: Text, format: string, metadata: Metadata,
    index: nat, level: Level, parent: Option<nat>, sources: set<ElementKind>)

  datatype ConfigError = OverlapNotBelowSize | ParentBelowChild

  // ---- Windows with overlap ----

  datatype Window = Window(number: nat, start: nat, tokens: Text)

  /** The windows a chunking loop emits from `start` on, `number` counting the attempts. */
  function Windows(tokens: Text, size: nat, overlap: nat, decodes: Text -> bool, start: nat, number: nat): seq<Window>
    requires overlap < size
    decreases |tokens| - start
  {
    if start >= |tokens| then []
    else
      var end := Min(start + size, |tokens|);
      var slice := tokens[start..end];
      if !decodes(slice) then Windows(tokens, size, overlap, decodes, start + size - overlap, number + 1)
      else if end >= |tokens| then [Window(number, start, slice)]
      else [Window(number, start, slice)] + Windows(tokens, size, overlap, decodes, start + size - overlap, number + 1)
  }

  /** The windows of the same loop when nothing is skipped. */
  function Tiling(tokens: Text, size: nat, overlap: nat, start: nat, number: nat): seq<Window>
    requires overlap < size
    decreases |tokens| - start
  {
    if start >= |tokens| then []
    else if start + size >= |tokens| then [Window(number, start, tokens[start..])]
    else [Window(number, start, tokens[start..start + size])]
         + Tiling(tokens, size, overlap, start + size - overlap, number + 1)
  }

  ghost predicate AllDecode(ws: seq<Window>, decodes: Text -> bool) {
    forall w | w in ws :: decodes(w.tokens)
  }

  lemma {:induction false} WindowsDecode(tokens: Text, size: nat, overlap: nat, decodes: Text -> bool, start: nat,
      number: nat)
    requires overlap < size
    ensures AllDecode(Windows(tokens, size, overlap, decodes, start, number), decodes)
    ensures AllDecode(Tiling(tokens, size, overlap, start, number), decodes) ==>
              Windows(tokens, size, overlap, decodes, start, number) == Tiling(tokens, size, overlap, start, number)
    decreases |tokens| - start
  {
    if start < |tokens| {
      var end := Min(start + size, |tokens|);
      var slice := tokens[start..end];
      WindowsDecode(tokens, size, overlap, decodes, start + size - overlap, number + 1);
      if AllDecode(Tiling(tokens, size, overlap, start, number), decodes) {
        var tiling := Tiling(tokens, size, overlap, start, number);
        assert tiling[0].tokens == slice && tiling[0] in tiling;
        if end < |tokens| {
          var rest := Tiling(tokens, size, overlap, start + size - overlap, number + 1);
          assert forall w | w in rest :: w in tiling;
        }
      }
    }
  }

  /** The emitted windows are the full tiling exactly when every slice of the tiling decodes. */
  lemma {:induction false} NothingSkipped(tokens: Text, size: nat, overlap: nat, decodes: Text -> bool, start: nat,
      number: nat)
    requires overlap < size
    ensures Windows(tokens, size, overlap, decodes, start, number) == Tiling(tokens, size, overlap, start, number)
       <==> AllDecode(Tiling(tokens, size, overlap, start, number), decodes)
  {
    WindowsDecode(tokens, size, overlap, decodes, start, number);
  }

  function End(w: Window): nat { w.start + |w.tokens| }

  predicate IsSlice(part: Text, whole: Text) {
    exists i | 0 <= i <= |whole| :: part <= whole[i..]
  }

  /** Whatever is skipped, a window is the slice at its own start, and starts and attempt numbers move together. */
  lemma {:induction false} WindowsAreSlices(tokens: Text, size: nat, overlap: nat, decodes: Text -> bool, start: nat,
      number: nat, i: nat)
    requires overlap < size
    requires i < |Windows(tokens, size, overlap, decodes, start, number)|
    ensures var w := Windows(tokens, size, overlap, decodes, start, number)[i];
      && 0 < |w.tokens| <= size && End(w) <= |tokens| && w.tokens == tokens[w.start..End(w)]
      && (|w.tokens| < size ==> End(w) == |tokens|)
      && w.number >= number && w.start == start + (w.number - number) * (size - overlap)
      && IsSlice(w.tokens, tokens)
    decreases |tokens| - start
  {
    var ws := Windows(tokens, size, overlap, decodes, start, number);
    var slice := tokens[start..Min(start + size, |tokens|)];
    var next := start + size - overlap;
    if decodes(slice) && i == 0 {
      assert ws[0].tokens == slice;
      assert slice <= tokens[start..];
    } else {
      var k := if decodes(slice) then i - 1 else i;
      var w := ws[i];
      assert w == Windows(tokens, size, overlap, decodes, next, number + 1)[k];
      WindowsAreSlices(tokens, size, overlap, decodes, next, number + 1, k);
      assert (w.number - number) * (size - overlap) == (w.number - (number + 1)) * (size - overlap) + (size - overlap);
    }
  }

  /** The slice the loop looks at when it starts there. */
  function SliceAt(tokens: Text, size: nat, start: nat): Text
    requires start <= |tokens|
  {
    tokens[start..Min(start + size, |tokens|)]
  }

  /**
   * An attempt is emitted exactly when its slice decodes and no earlier decodable slice reached the end of
   * the text. So an undecodable slice costs itself and no other.
   */
  lemma {:induction false} WindowsComplete(tokens: Text, size: nat, overlap: nat, decodes: Text -> bool, start: nat,
      number: nat, k: nat)
    requires overlap < size && start + k * (size - overlap) < |tokens|
    ensures var at := start + k * (size - overlap);
      Window(number + k, at, SliceAt(tokens, size, at)) in Windows(tokens, size, overlap, decodes, start, number)
      <==> && decodes(SliceAt(tokens, size, at))
           && forall j: nat | j < k :: !AttemptEnds(tokens, size, overlap, decodes, start, j)
    decreases k
  {
    var step := size - overlap;
    var next := start + step;
    var ws := Windows(tokens, size, overlap, decodes, start, number);
    if k == 0 {
      if !decodes(SliceAt(tokens, size, start)) {
        NoEarlier(tokens, size, overlap, decodes, next, number + 1, number);
      } else {
        assert Window(number, start, SliceAt(tokens, size, start)) in ws;
      }
    } else {
      assert start + k * step == next + (k - 1) * step;
      WindowsComplete(tokens, size, overlap, decodes, next, number + 1, k - 1);
      forall j: nat
        ensures AttemptEnds(tokens, size, overlap, decodes, next, j)
             == AttemptEnds(tokens, size, overlap, decodes, start, j + 1)
      {
        assert next + j * step == start + (j + 1) * step;
      }
      LaterAttempts(tokens, size, overlap, decodes, start, next, k);
    }
  }

  /** Is the slice of attempt j decodable, and does it reach the end of the text? */
  predicate AttemptEnds(tokens: Text, size: nat, overlap: nat, decodes: Text -> bool, start: nat, j: nat)
    requires overlap < size
  {
    var at := start + j * (size - overlap);
    at <= |tokens| <= at + size && decodes(SliceAt(tokens, size, at))
  }

  lemma {:induction false} LaterAttempts(tokens: Text, size: nat, overlap: nat, decodes: Text -> bool, start: nat,
      next: nat, k: nat)
    requires overlap < size && k > 0
    requires forall j: nat :: AttemptEnds(tokens, size, overlap, decodes, next, j)
                           == AttemptEnds(tokens, size, overlap, decodes, start, j + 1)
    ensures (forall j: nat | j < k :: !AttemptEnds(tokens, size, overlap, decodes, start, j))
       <==> && !AttemptEnds(tokens, size, overlap, decodes, start, 0)
            && forall j: nat | j < k - 1 :: !AttemptEnds(tokens, size, overlap, decodes, next, j)
  {
    hide AttemptEnds;
    forall j: nat | 0 < j < k
      ensures AttemptEnds(tokens, size, overlap, decodes, start, j)
           == AttemptEnds(tokens, size, overlap, decodes, next, j - 1)
    {
      assert AttemptEnds(tokens, size, overlap, decodes, start, (j - 1) + 1)
          == AttemptEnds(tokens, size, overlap, decodes, next, j - 1);
    }
  }

  lemma {:induction false} NoEarlier(tokens: Text, size: nat, overlap: nat, decodes: Text -> bool, start: nat,
        number: nat, earlier: nat)
    requires overlap < size && earlier < number
    ensures forall w | w in Windows(tokens, size, overlap, decodes, start, number) :: w.number != earlier
  {
    var ws := Windows(tokens, size, overlap, decodes, start, number);
    forall i | 0 <= i < |ws| ensures ws[i].number != earlier {
      WindowsAreSlices(tokens, size, overlap, decodes, start, number, i);
    }
  }

  /** Window i is the non-empty slice at its start, one attempt later than window i - 1. */
  lemma {:induction false} TilingSlice(tokens: Text, size: nat, overlap: nat, start: nat, number: nat, i: nat)
    requires overlap < size && i < |Tiling(tokens, size, overlap, start, number)|
    ensures var w := Tiling(tokens, size, overlap, start, number)[i];
      && w.number == number + i && start <= w.start && 0 < |w.tokens| <= size && End(w) <= |tokens|
      && w.tokens == tokens[w.start..End(w)]
    decreases |tokens| - start
  {
    if i > 0 {
      TilingSlice(tokens, size, overlap, start + size - overlap, number + 1, i - 1);
    }
  }

  /** Whatever is skipped, later windows start later and end later, so no window lies inside another. */
  lemma {:induction false} WindowsNeverNest(tokens: Text, size: nat, overlap: nat, decodes: Text -> bool, start: nat,
      number: nat, i: nat, j: nat)
    requires overlap < size && i < j < |Windows(tokens, size, overlap, decodes, start, number)|
    ensures var ws := Windows(tokens, size, overlap, decodes, start, number);
            ws[i].start < ws[j].start && End(ws[i]) < End(ws[j])
    decreases |tokens| - start
  {
    var next := start + size - overlap;
    if !decodes(tokens[start..Min(start + size, |tokens|)]) {
      WindowsNeverNest(tokens, size, overlap, decodes, next, number + 1, i, j);
    } else if i > 0 {
      WindowsNeverNest(tokens, size, overlap, decodes, next, number + 1, i - 1, j - 1);
    } else {
      var w := Windows(tokens, size, overlap, decodes, next, number + 1)[j - 1];
      WindowsAreSlices(tokens, size, overlap, decodes, next, number + 1, j - 1);
      MultiplyMonotone(0, w.number - (number + 1), size - overlap);
    }
  }

  // ---- Laying overlapping texts over each other ----

  /** Every text without its first `overlap` tokens, joined. */
  function Tails(texts: seq<Text>, overlap: nat): Text {
    if texts == [] then []
    else (if overlap <= |texts[0]| then texts[0][overlap..] else []) + Tails(texts[1..], overlap)
  }

  /** The first text followed by every later one minus its first `overlap` tokens. */
  function Overlay(texts: seq<Text>, overlap: nat): Text {
    if texts == [] then [] else texts[0] + Tails(texts[1..], overlap)
  }

  function WindowTexts(ws: seq<Window>): seq<Text> {
    if ws == [] then [] else [ws[0].tokens] + WindowTexts(ws[1..])
  }

  lemma {:induction false} TailsRejoin(tokens: Text, size: nat, overlap: nat, start: nat, number: nat)
    requires overlap < size && start + overlap < |tokens|
    ensures Tails(WindowTexts(Tiling(tokens, size, overlap, start, number)), overlap) == tokens[start + overlap..]
    decreases |tokens| - start
  {
    var ws := Tiling(tokens, size, overlap, start, number);
    if start + size >= |tokens| {
      assert ws[1..] == [];
      assert tokens[start..][overlap..] == tokens[start + overlap..];
    } else {
      var next := start + size - overlap;
      TailsRejoin(tokens, size, overlap, next, number + 1);
      assert ws[1..] == Tiling(tokens, size, overlap, next, number + 1);
      assert tokens[start + overlap..] == tokens[start..start + size][overlap..] + tokens[start + size..];
    }
  }

  /** Laid over each other, the windows of a full tiling are the text again. */
  lemma {:induction false} TilingReconstructs(tokens: Text, size: nat, overlap: nat)
    requires overlap < size
    ensures Overlay(WindowTexts(Tiling(tokens, size, overlap, 0, 0)), overlap) == tokens
  {
    var ws := Tiling(tokens, size, overlap, 0, 0);
    if size < |tokens| {
      TailsRejoin(tokens, size, overlap, size - overlap, 1);
      assert ws[1..] == Tiling(tokens, size, overlap, size - overlap, 1);
      assert tokens == tokens[..size] + tokens[size..];
    } else if tokens != [] {
      assert ws[1..] == [];
    }
  }

  lemma {:induction false} AllDecodeStep(tokens: Text, size: nat, overlap: nat, decodes: Text -> bool, start: nat,
      number: nat)
    requires overlap < size && start < |tokens|
    ensures AllDecode(Tiling(tokens, size, overlap, start, number), decodes)
       <==> decodes(tokens[start..Min(start + size, |tokens|)])
            && (start + size < |tokens| ==>
                AllDecode(Tiling(tokens, size, overlap, start + size - overlap, number + 1), decodes))
  {
    var ws := Tiling(tokens, size, overlap, start, number);
    assert tokens[start..] == tokens[start..|tokens|];
    assert ws[0] in ws;
    if start + size < |tokens| {
      assert ws == [ws[0]] + Tiling(tokens, size, overlap, start + size - overlap, number + 1);
    }
  }

  /** The tails of what a loop emits fall short as soon as a slice of the tiling is skipped. */
  lemma {:induction false} TailsFallShort(tokens: Text, size: nat, overlap: nat, decodes: Text -> bool, start: nat,
      number: nat)
    requires overlap < size
    ensures var tails := Tails(WindowTexts(Windows(tokens, size, overlap, decodes, start, number)), overlap);
      && |tails| <= Max(0, |tokens| - start - overlap)
      && (start + overlap < |tokens| && !AllDecode(Tiling(tokens, size, overlap, start, number), decodes) ==>
            |tails| < |tokens| - start - overlap)
    decreases |tokens| - start
  {
    if start < |tokens| {
      var end, next := Min(start + size, |tokens|), start + size - overlap;
      var ws := Windows(tokens, size, overlap, decodes, start, number);
      TailsFallShort(tokens, size, overlap, decodes, next, number + 1);
      AllDecodeStep(tokens, size, overlap, decodes, start, number);
      if decodes(tokens[start..end]) {
        assert ws[1..] == if end < |tokens| then Windows(tokens, size, overlap, decodes, next, number + 1) else [];
      }
    }
  }

  /** Laid over each other, the emitted windows never exceed what is left of the text. */
  lemma {:induction false} OverlayBounded(tokens: Text, size: nat, overlap: nat, decodes: Text -> bool, start: nat,
      number: nat)
    requires overlap < size
    ensures |Overlay(WindowTexts(Windows(tokens, size, overlap, decodes, start, number)), overlap)|
         <= Max(0, |tokens| - start)
    decreases |tokens| - start
  {
    if start < |tokens| {
      var end, next := Min(start + size, |tokens|), start + size - overlap;
      var ws := Windows(tokens, size, overlap, decodes, start, number);
      if decodes(tokens[start..end]) {
        TailsFallShort(tokens, size, overlap, decodes, next, number + 1);
        assert WindowTexts(ws)[1..]
            == WindowTexts(if end < |tokens| then Windows(tokens, size, overlap, decodes, next, number + 1) else []);
      } else {
        OverlayBounded(tokens, size, overlap, decodes, next, number + 1);
      }
    }
  }

  /** The emitted windows give the text back exactly when every slice of the tiling decodes. */
  lemma {:induction false} WindowsReconstructIff(tokens: Text, size: nat, overlap: nat, decodes: Text -> bool)
    requires overlap < size
    ensures Overlay(WindowTexts(Windows(tokens, size, overlap, decodes, 0, 0)), overlap) == tokens
       <==> AllDecode(Tiling(tokens, size, overlap, 0, 0), decodes)
  {
    NothingSkipped(tokens, size, overlap, decodes, 0, 0);
    TilingReconstructs(tokens, size, overlap);
    if !AllDecode(Tiling(tokens, size, overlap, 0, 0), decodes) {
      SkippingShortens(tokens, size, overlap, decodes);
    }
  }

  lemma {:induction false} SkippingShortens(tokens: Text, size: nat, overlap: nat, decodes: Text -> bool)
    requires overlap < size && !AllDecode(Tiling(tokens, size, overlap, 0, 0), decodes)
    ensures |Overlay(WindowTexts(Windows(tokens, size, overlap, decodes, 0, 0)), overlap)| < |tokens|
  {
    var next := size - overlap;
    assert tokens != [];
    AllDecodeStep(tokens, size, overlap, decodes, 0, 0);
    if !decodes(tokens[0..Min(size, |tokens|)]) {
      OverlayBounded(tokens, size, overlap, decodes, next, 1);
    } else {
      var ws := Windows(tokens, size, overlap, decodes, 0, 0);
      TailsFallShort(tokens, size, overlap, decodes, next, 1);
      assert WindowTexts(ws)[1..] == WindowTexts(Windows(tokens, size, overlap, decodes, next, 1));
    }
  }

  // ---- How many windows ----

  lemma {:induction false} TilingCountBounds(tokens: Text, size: nat, overlap: nat, start: nat, number: nat)
    requires overlap < size && start < |tokens|
    ensures var k := |Tiling(tokens, size, overlap, start, number)|; var step := size - overlap;
      k >= 1 && |tokens| - start <= (k - 1) * step + size && (k > 1 ==> (k - 2) * step + size < |tokens| - start)
    decreases |tokens| - start
  {
    if start + size < |tokens| {
      var step := size - overlap;
      TilingCountBounds(tokens, size, overlap, start + step, number + 1);
      var k := |Tiling(tokens, size, overlap, start + step, number + 1)|;
      assert |Tiling(tokens, size, overlap, start, number)| == k + 1;
      assert (k - 1) * step + step == k * step;
      assert (k - 2) * step + step == (k - 1) * step;
    }
  }

  lemma {:induction false} CeilingUnique(a: nat, step: nat, q: int)
    requires step > 0 && (q - 1) * step < a <= q * step
    ensures q == (a + step - 1) / step
  {
    var c := (a + step - 1) / step;
    MultiplyMonotone(c, q - 1, step);
    MultiplyMonotone(q + 1, c, step);
  }

  lemma {:induction false} MultiplyMonotone(x: int, y: int, z: nat)
    ensures x <= y ==> x * z <= y * z
  {
  }

  /** One window up to the size, otherwise one more than the steps needed to cover the excess. */
  lemma {:induction false} TilingCount(tokens: Text, size: nat, overlap: nat)
    requires overlap < size && tokens != []
    ensures |Tiling(tokens, size, overlap, 0, 0)|
         == if |tokens| <= size then 1
            else (|tokens| - size + (size - overlap) - 1) / (size - overlap) + 1
  {
    TilingCountBounds(tokens, size, overlap, 0, 0);
    if size < |tokens| {
      var k := |Tiling(tokens, size, overlap, 0, 0)|;
      assert (k - 1 - 1) * (size - overlap) == (k - 2) * (size - overlap);
      CeilingUnique(|tokens| - size, size - overlap, k - 1);
    }
  }

  // ---- Fixed-size strategy ----

  function Concat(texts: seq<Text>): Text {
    if texts == [] then [] else texts[0] + Concat(texts[1..])
  }

  lemma {:induction false} ConcatSnoc(texts: seq<Text>, last: Text)
    ensures Concat(texts + [last]) == Concat(texts) + last
  {
    if texts == [] {
      assert texts + [last] == [last];
    } else {
      ConcatSnoc(texts[1..], last);
      assert (texts + [last])[1..] == texts[1..] + [last];
    }
  }

  function TextsOf(elements: seq<Element>): seq<Text> {
    seq(|elements|, i requires 0 <= i < |elements| => elements[i].text)
  }

  /** Metadata of the first element that has any token. */
  function FirstMetadata(elements: seq<Element>): Metadata {
    if elements == [] then map[]
    else if elements[0].text != [] then elements[0].metadata
    else FirstMetadata(elements[1..])
  }

  lemma {:induction false} FirstMetadataSnoc(elements: seq<Element>, last: Element)
    ensures FirstMetadata(elements + [last])
         == if Concat(TextsOf(elements)) == [] && last.text != [] then last.metadata else FirstMetadata(elements)
  {
    if elements == [] {
      assert elements + [last] == [last];
    } else {
      FirstMetadataSnoc(elements[1..], last);
      assert (elements + [last])[1..] == elements[1..] + [last];
      assert TextsOf(elements)[1..] == TextsOf(elements[1..]);
    }
  }

  function FixedChunkOf(w: Window, metadata: Metadata, sources: set<ElementKind>): DocumentChunk {
    DocumentChunk(TextElement, w.tokens, "text", metadata, w.number, NoLevel, None, sources)
  }

  function FixedChunksOf(ws: seq<Window>, metadata: Metadata, sources: set<ElementKind>): seq<DocumentChunk> {
    seq(|ws|, i requires 0 <= i < |ws| => FixedChunkOf(ws[i], metadata, sources))
  }

  function FixedChunks(elements: seq<Element>, size: nat, overlap: nat, decodes: Text -> bool): seq<DocumentChunk>
    requires overlap < size
  {
    FixedChunksOf(Windows(Concat(TextsOf(elements)), size, overlap, decodes, 0, 0),
                  FirstMetadata(elements), set e | e in elements :: e.kind)
  }

  /** First half of the fixed strategy: one token list, the first metadata, the kinds seen. */
  method CollectTokens(elements: seq<Element>)
    returns (tokens: Text, metadata: Metadata, sources: set<ElementKind>)
    ensures tokens == Concat(TextsOf(elements))
    ensures metadata == FirstMetadata(elements)
    ensures sources == set e | e in elements :: e.kind
  {
    tokens, metadata, sources := [], map[], {};
    for n := 0 to |elements|
      invariant tokens == Concat(TextsOf(elements[..n]))
      invariant metadata == FirstMetadata(elements[..n])
      invariant sources == set e | e in elements[..n] :: e.kind
    {
      var element := elements[n];
      ConcatSnoc(TextsOf(elements[..n]), element.text);
      FirstMetadataSnoc(elements[..n], element);
      assert elements[..n + 1] == elements[..n] + [element];
      assert TextsOf(elements[..n + 1]) == TextsOf(elements[..n]) + [element.text];
      if tokens == [] && element.text != [] {
        metadata := element.metadata;
      }
      sources := sources + {element.kind};
      tokens := tokens + element.text;
    }
    assert elements[..|elements|] == elements;
  }

  /** One turn of the window loop. */
  lemma {:induction false} WindowStep(tokens: Text, size: nat, overlap: nat, decodes: Text -> bool, start: nat,
      number: nat, metadata: Metadata, sources: set<ElementKind>, before: seq<DocumentChunk>)
    requires overlap < size && start < |tokens|
    ensures var end, next := Min(start + size, |tokens|), start + size - overlap;
      var slice := tokens[start..end];
      before + FixedChunksOf(Windows(tokens, size, overlap, decodes, start, number), metadata, sources)
      == if !decodes(slice)
         then before + FixedChunksOf(Windows(tokens, size, overlap, decodes, next, number + 1), metadata, sources)
         else before + [FixedChunkOf(Window(number, start, slice), metadata, sources)]
              + if end >= |tokens| then []
                 else FixedChunksOf(Windows(tokens, size, overlap, decodes, next, number + 1), metadata, sources)
  {
  }

  lemma {:induction false} NoWindowLeft(tokens: Text, size: nat, overlap: nat, decodes: Text -> bool, start: nat,
      number: nat, metadata: Metadata, sources: set<ElementKind>)
    requires overlap < size && start >= |tokens|
    ensures FixedChunksOf(Windows(tokens, size, overlap, decodes, start, number), metadata, sources) == []
  {
  }

  /** Second half: the window loop. A slice that does not decode is skipped but keeps its number. */
  method EmitWindows(tokens: Text, size: nat, overlap: nat, decodes: Text -> bool, metadata: Metadata,
      sources: set<ElementKind>)
    returns (chunks: seq<DocumentChunk>)
    requires overlap < size
    ensures chunks == FixedChunksOf(Windows(tokens, size, overlap, decodes, 0, 0), metadata, sources)
  {
    hide Windows, FixedChunksOf;
    var step := size - overlap;
    var start, chunkIndex := 0, 0;
    ghost var all := FixedChunksOf(Windows(tokens, size, overlap, decodes, 0, 0), metadata, sources);
    chunks := [];
    while start < |tokens|
      invariant start >= 0 && chunkIndex >= 0
      invariant chunks + FixedChunksOf(Windows(tokens, size, overlap, decodes, start, chunkIndex), metadata, sources)
           == all
      decreases |tokens| - start
    {
      var end := Min(start + size, |tokens|);
      var slice := tokens[start..end];
      WindowStep(tokens, size, overlap, decodes, start, chunkIndex, metadata, sources, chunks);
      if !decodes(slice) {
        start, chunkIndex := start + step, chunkIndex + 1;
        continue;
      }
      chunks := chunks + [FixedChunkOf(Window(chunkIndex, start, slice), metadata, sources)];
      chunkIndex := chunkIndex + 1;
      if end >= |tokens| {
        return;
      }
      start := start + step;
    }
    NoWindowLeft(tokens, size, overlap, decodes, start, chunkIndex, metadata, sources);
  }

  method ChunkFixedSize(elements: seq<Element>, size: nat, overlap: nat, decodes: Text -> bool)
    returns (r: Result<seq<DocumentChunk>, ConfigError>)
    ensures r == if overlap >= size then Err(OverlapNotBelowSize)
                 else Ok(FixedChunks(elements, size, overlap, decodes))
  {
    if overlap >= size {
      return Err(OverlapNotBelowSize);
    }
    var tokens, metadata, sources := CollectTokens(elements);
    if tokens == [] {
      assert FixedChunks(elements, size, overlap, decodes) == [];
      return Ok([]);
    }
    var chunks := EmitWindows(tokens, size, overlap, decodes, metadata, sources);
    return Ok(chunks);
  }

  /** Position of the first element with text. */
  lemma {:induction false} FirstWithText(elements: seq<Element>) returns (first: nat)
    requires Concat(TextsOf(elements)) != []
    ensures first < |elements| && elements[first].text != [] && forall j | 0 <= j < first :: elements[j].text == []
    ensures FirstMetadata(elements) == elements[first].metadata
  {
    assert TextsOf(elements)[1..] == TextsOf(elements[1..]);
    if elements[0].text != [] {
      first := 0;
    } else {
      var rest := FirstWithText(elements[1..]);
      first := rest + 1;
    }
  }

  /**
   * Every chunk of the fixed strategy is a decodable slice of the text of at most the size, marked as text
   * without a level, with the kinds of all elements and the metadata of the first element with text.
   */
  lemma {:induction false} FixedChunksShaped(elements: seq<Element>, size: nat, overlap: nat, decodes: Text -> bool,
        i: nat)
    returns (first: nat)
    requires overlap < size && i < |FixedChunks(elements, size, overlap, decodes)|
    ensures first < |elements| && elements[first].text != [] && forall j | 0 <= j < first :: elements[j].text == []
    ensures var c := FixedChunks(elements, size, overlap, decodes)[i];
      && c.kind == TextElement && c.format == "text" && c.level == NoLevel && c.parent == None
      && c.sources == (set e | e in elements :: e.kind) && c.metadata == elements[first].metadata
      && 0 < |c.text| <= size && decodes(c.text) && IsSlice(c.text, Concat(TextsOf(elements)))
  {
    var text := Concat(TextsOf(elements));
    var ws := Windows(text, size, overlap, decodes, 0, 0);
    first := FirstWithText(elements);
    WindowsAreSlices(text, size, overlap, decodes, 0, 0, i);
    WindowsDecode(text, size, overlap, decodes, 0, 0);
    assert ws[i] in ws;
  }

  function ChunkTexts(chunks: seq<DocumentChunk>): seq<Text> {
    seq(|chunks|, i requires 0 <= i < |chunks| => chunks[i].text)
  }

  lemma {:induction false} ChunkTextsOfWindows(ws: seq<Window>, metadata: Metadata, sources: set<ElementKind>)
    ensures ChunkTexts(FixedChunksOf(ws, metadata, sources)) == WindowTexts(ws)
  {
    if ws != [] {
      ChunkTextsOfWindows(ws[1..], metadata, sources);
      var chunks := FixedChunksOf(ws, metadata, sources);
      assert chunks[1..] == FixedChunksOf(ws[1..], metadata, sources);
      assert ChunkTexts(chunks) == [ws[0].tokens] + ChunkTexts(chunks[1..]);
    }
  }

  /**
   * The fixed strategy's chunks, laid over each other, are the text of all elements exactly when every
   * window decodes; then their indices run 0, 1, 2, ...
   */
  lemma {:induction false} FixedChunksReconstruct(elements: seq<Element>, size: nat, overlap: nat,
      decodes: Text -> bool)
    requires overlap < size
    ensures var chunks, text := FixedChunks(elements, size, overlap, decodes), Concat(TextsOf(elements));
      && (Overlay(ChunkTexts(chunks), overlap) == text <==> AllDecode(Tiling(text, size, overlap, 0, 0), decodes))
      && (AllDecode(Tiling(text, size, overlap, 0, 0), decodes) ==>
            forall i | 0 <= i < |chunks| :: chunks[i].index == i)
  {
    var text := Concat(TextsOf(elements));
    var ws := Windows(text, size, overlap, decodes, 0, 0);
    ChunkTextsOfWindows(ws, FirstMetadata(elements), set e | e in elements :: e.kind);
    WindowsReconstructIff(text, size, overlap, decodes);
    NothingSkipped(text, size, overlap, decodes, 0, 0);
    if AllDecode(Tiling(text, size, overlap, 0, 0), decodes) {
      forall i | 0 <= i < |ws| ensures ws[i].number == i {
        TilingSlice(text, size, overlap, 0, 0, i);
      }
    }
  }
}
