/**
 * Deterministic chunk identities.
 *
 * A stored chunk's id is uuid5(document, name), section 5.5 of RFC 9562, taken as injective in
 * the pair. Ingest names a chunk by its decimal position; a reindex by position, ":v" and the
 * target version. The model keeps the parts of a name apart; SameNameSameChunk proves that the
 * rendered names tell apart exactly what the parts tell apart.
 */
module ChunkIds {
  type DocumentId = nat

  datatype ChunkId =
    | IngestChunkId(document: DocumentId, position: nat)
    | TargetChunkId(document: DocumentId, position: nat, version: nat)

  predicate IsDigit(c: char) { '0' <= c <= '9' }

  function Digit(d: nat): (c: char)
    requires d < 10
    ensures IsDigit(c)
  {
    ('0' as int + d) as char
  }

  /** The decimal numeral of n, as str(n) renders it. */
  function Decimal(n: nat): (s: string)
    ensures s != [] && forall c | c in s :: IsDigit(c)
  {
    if n < 10 then [Digit(n)] else Decimal(n / 10) + [Digit(n % 10)]
  }

  /** Reads a numeral back: the inverse that makes Decimal injective. */
  function ReadDecimal(s: string): int {
    if s == [] then 0 else ReadDecimal(s[..|s| - 1]) * 10 + (s[|s| - 1] as int - '0' as int)
  }

  lemma {:induction false} DecimalRoundTrip(n: nat)
    ensures ReadDecimal(Decimal(n)) == n
  {
    var s := Decimal(n);
    if n >= 10 {
      DecimalRoundTrip(n / 10);
      assert s[..|s| - 1] == Decimal(n / 10);
    } else {
      assert s[..|s| - 1] == [];
    }
  }

  /** The name handed to uuid5 together with the document. */
  function Name(id: ChunkId): string {
    match id
    case IngestChunkId(_, position) => Decimal(position)
    case TargetChunkId(_, position, version) => Decimal(position) + ":v" + Decimal(version)
  }

  /** The digits a name starts with. */
  function LeadingDigits(s: string): string {
    if s == [] || !IsDigit(s[0]) then [] else [s[0]] + LeadingDigits(s[1..])
  }

  /** Digits followed by a colon split in one way only. */
  lemma {:induction false} LeadingDigitsOf(a: string, rest: string)
    requires forall c | c in a :: IsDigit(c)
    ensures LeadingDigits(a + ":" + rest) == a
  {
    if a == [] {
      assert (a + ":" + rest)[0] == ':';
    } else {
      LeadingDigitsOf(a[1..], rest);
      assert (a + ":" + rest)[1..] == a[1..] + ":" + rest;
      assert a == [a[0]] + a[1..];
    }
  }

  lemma {:induction false} SplitAtMark(a: string, x: string, b: string, y: string)
    requires (forall c | c in a :: IsDigit(c)) && (forall c | c in b :: IsDigit(c))
    requires a + ":v" + x == b + ":v" + y
    ensures a == b && x == y
  {
    assert a + ":" + ("v" + x) == a + ":v" + x;
    assert b + ":" + ("v" + y) == b + ":v" + y;
    LeadingDigitsOf(a, "v" + x);
    LeadingDigitsOf(b, "v" + y);
    assert x == (a + ":v" + x)[|a| + 2..];
    assert y == (b + ":v" + y)[|b| + 2..];
  }

  lemma {:induction false} TargetNamesInjective(p1: nat, v1: nat, p2: nat, v2: nat)
    requires Decimal(p1) + ":v" + Decimal(v1) == Decimal(p2) + ":v" + Decimal(v2)
    ensures p1 == p2 && v1 == v2
  {
    SplitAtMark(Decimal(p1), Decimal(v1), Decimal(p2), Decimal(v2));
    DecimalRoundTrip(p1);
    DecimalRoundTrip(p2);
    DecimalRoundTrip(v1);
    DecimalRoundTrip(v2);
  }

  /** A bare position never reads as a reindex name: the colon tells them apart. */
  lemma {:induction false} NamesDisjoint(p1: nat, p2: nat, version: nat)
    ensures Decimal(p1) != Decimal(p2) + ":v" + Decimal(version)
  {
    var t := Decimal(p2) + ":v" + Decimal(version);
    assert t[|Decimal(p2)|] == ':';
    assert t[|Decimal(p2)|] in t;
  }

  /** Two ids are derived from the same document and name exactly when they are the same id. */
  lemma {:induction false} SameNameSameChunk(a: ChunkId, b: ChunkId)
    ensures a.document == b.document && Name(a) == Name(b) <==> a == b
  {
    if a.document == b.document && Name(a) == Name(b) {
      match (a, b) {
        case (IngestChunkId(_, p1), IngestChunkId(_, p2)) =>
          DecimalRoundTrip(p1);
          DecimalRoundTrip(p2);
        case (TargetChunkId(_, p1, v1), TargetChunkId(_, p2, v2)) => TargetNamesInjective(p1, v1, p2, v2);
        case (IngestChunkId(_, p1), TargetChunkId(_, p2, v)) => NamesDisjoint(p1, p2, v);
        case (TargetChunkId(_, p1, v), IngestChunkId(_, p2)) => NamesDisjoint(p2, p1, v);
      }
    }
  }
}
