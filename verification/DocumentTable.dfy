/** The source_documents table: soft deletion, versions that supersede each other, filename aliases. */
module DocumentTable {
  import opened Support
  import opened ChunkIds
  import opened VectorStores

  datatype DeletionReason = UserRequest | Superseded | Expired | PipelineFailure

  datatype Document = Document(
    namespace: string, filename: string, hash: string, version: nat, supersedes: Option<DocumentId>,
    aliases: seq<string>, deleted: Option<DeletionReason>, chunkCount: Option<nat>)

  type Table = map<DocumentId, Document>

  predicate IsLive(t: Table, id: DocumentId) {
    id in t && t[id].deleted == None
  }

  /** Rows whose content was processed: all but those a failed ingest left behind and cleaned up. */
  predicate Ingested(t: Table, id: DocumentId) {
    id in t && t[id].deleted != Some(PipelineFailure)
  }

  /** What a join on live rows needs: their namespaces. */
  function Live(t: Table): LiveDocuments {
    map id | id in t && t[id].deleted == None :: t[id].namespace
  }

  /** Two rows that the partial unique indexes on (namespace, filename) and (namespace, hash) keep apart. */
  predicate Clash(a: Document, b: Document) {
    a.namespace == b.namespace && (a.filename == b.filename || a.hash == b.hash)
  }

  /** The two partial unique indexes. */
  ghost predicate UniqueLive(t: Table) {
    forall a, b | IsLive(t, a) && IsLive(t, b) && a != b :: !Clash(t[a], t[b])
  }

  /** Would making `row` live under `id` violate an index? */
  predicate Violates(t: Table, id: DocumentId, row: Document) {
    exists other | other in t :: IsLive(t, other) && other != id && Clash(t[other], row)
  }

  ghost predicate RowValid(t: Table, row: Document) {
    && NoDuplicates(row.aliases) && row.filename !in row.aliases
    && match row.supersedes
       case None => row.version == 1
       case Some(q) =>
         q in t && t[q].namespace == row.namespace && t[q].filename == row.filename && row.version == t[q].version + 1
  }

  ghost predicate TableValid(t: Table) {
    UniqueLive(t) && forall id {:trigger RowValid(t, t[id])} | id in t :: RowValid(t, t[id])
  }

  /** The rows a document supersedes, newest first. Versions count down along it, so it ends. */
  ghost function History(t: Table, id: DocumentId): (chain: seq<DocumentId>)
    requires TableValid(t) && id in t
    ensures |chain| == t[id].version > 0 && chain[0] == id
    ensures forall i | 0 <= i < |chain| :: chain[i] in t && t[chain[i]].version == t[id].version - i
                                           && t[chain[i]].namespace == t[id].namespace
                                           && t[chain[i]].filename == t[id].filename
    decreases t[id].version
  {
    assert RowValid(t, t[id]);
    match t[id].supersedes
    case None => [id]
    case Some(q) =>
      var rest := History(t, q);
      assert forall i | 0 < i < |rest| + 1 :: ([id] + rest)[i] == rest[i - 1];
      [id] + rest
  }

  /** A document's chain of superseded versions is its version number long and never returns to a row. */
  lemma {:induction false} HistoryNeverRepeats(t: Table, id: DocumentId)
    requires TableValid(t) && id in t
    ensures |History(t, id)| == t[id].version && NoDuplicates(History(t, id))
  {
    var chain := History(t, id);
    forall i, j | 0 <= i < j < |chain| ensures chain[i] != chain[j] {
      assert t[chain[i]].version != t[chain[j]].version;
    }
  }

  /** The two columns that identify a live row within a namespace. */
  datatype Column = Filename | Hash

  function ValueOf(row: Document, column: Column): string {
    match column
    case Filename => row.filename
    case Hash => row.hash
  }

  /** The live row with this value, if any: at most one, by the index on the column. */
  function LiveBy(t: Table, namespace: string, column: Column, value: string): (r: Option<DocumentId>)
    requires UniqueLive(t)
    ensures match r
      case None => forall d | IsLive(t, d) :: t[d].namespace != namespace || ValueOf(t[d], column) != value
      case Some(d) => IsLive(t, d) && t[d].namespace == namespace && ValueOf(t[d], column) == value
  {
    var found := set d | d in t && IsLive(t, d) && t[d].namespace == namespace && ValueOf(t[d], column) == value;
    assert forall d ::
      d in found <==> d in t && IsLive(t, d) && t[d].namespace == namespace && ValueOf(t[d], column) == value;
    if found == {} then None
    else
      assert exists d :: d in found;
      assert forall a, b | a in found && b in found :: a == b by {
        forall a, b | a in found && b in found ensures a == b { assert Clash(t[a], t[b]); }
      }
      var d :| d in found;
      Some(d)
  }

  // ---- Single-row changes ----

  function SoftDelete(t: Table, id: DocumentId, reason: DeletionReason): Table {
    if id in t then t[id := t[id].(deleted := Some(reason))] else t
  }

  function Undelete(t: Table, id: DocumentId): Table {
    if id in t then t[id := t[id].(deleted := None)] else t
  }

  /** A row's validity looks only at the identity and version of the row it supersedes. */
  lemma {:induction false} RowStaysValid(t: Table, u: Table, row: Document)
    requires RowValid(t, row)
    requires forall x | x in t ::
      x in u && u[x].namespace == t[x].namespace && u[x].filename == t[x].filename && u[x].version == t[x].version
    ensures RowValid(u, row)
  {
  }

  lemma {:induction false} RowsStayValid(t: Table, u: Table, id: DocumentId)
    requires forall x {:trigger RowValid(t, t[x])} | x in t :: RowValid(t, t[x])
    requires forall x | x in t :: x in u && (x != id ==> u[x] == t[x])
    requires forall x | x in u :: x in t || x == id
    requires id in u && RowValid(t, u[id])
    requires id in t ==>
      u[id].namespace == t[id].namespace && u[id].filename == t[id].filename && u[id].version == t[id].version
    ensures forall x {:trigger RowValid(u, u[x])} | x in u :: RowValid(u, u[x])
  {
    forall x | x in u ensures RowValid(u, u[x]) {
      if x != id { assert RowValid(t, t[x]); }
      RowStaysValid(t, u, u[x]);
    }
  }

  /** Changing only a row's deletion, count or aliases leaves every row valid. */
  lemma {:induction false} ChangeRow(t: Table, u: Table, id: DocumentId)
    requires (forall x {:trigger RowValid(t, t[x])} | x in t :: RowValid(t, t[x])) && id in t && id in u
       && u == t[id := u[id]]
    requires NoDuplicates(u[id].aliases) && u[id].filename !in u[id].aliases
    requires u[id].namespace == t[id].namespace && u[id].filename == t[id].filename
    requires u[id].version == t[id].version && u[id].supersedes == t[id].supersedes
    ensures forall x {:trigger RowValid(u, u[x])} | x in u :: RowValid(u, u[x])
  {
    assert RowValid(t, t[id]);
    RowsStayValid(t, u, id);
  }

  lemma {:induction false} SoftDeleteKeeps(t: Table, id: DocumentId, reason: DeletionReason)
    requires TableValid(t)
    ensures TableValid(SoftDelete(t, id, reason))
  {
    var u := SoftDelete(t, id, reason);
    if id in t {
      assert RowValid(t, t[id]);
      ChangeRow(t, u, id);
    }
    forall a, b | IsLive(u, a) && IsLive(u, b) && a != b ensures !Clash(u[a], u[b]) {
      assert IsLive(t, a) && IsLive(t, b);
    }
  }

  lemma {:induction false} NewLiveRow(t: Table, u: Table, id: DocumentId)
    requires UniqueLive(t) && id in u && !Violates(t, id, u[id])
    requires forall x | x != id :: (x in t <==> x in u) && (x in t ==> t[x] == u[x])
    ensures UniqueLive(u)
  {
    forall a, b | IsLive(u, a) && IsLive(u, b) && a != b ensures !Clash(u[a], u[b]) {
      assert a == id || IsLive(t, a);
      assert b == id || IsLive(t, b);
    }
  }

  /** Clearing a deletion keeps the table valid when no index stands against it. */
  lemma {:induction false} UndeleteKeeps(t: Table, id: DocumentId)
    requires TableValid(t) && id in t && !Violates(t, id, t[id])
    ensures TableValid(Undelete(t, id))
  {
    var u := Undelete(t, id);
    assert RowValid(t, t[id]);
    ChangeRow(t, u, id);
    assert forall other | IsLive(t, other) :: Clash(t[other], u[id]) == Clash(t[other], t[id]);
    NewLiveRow(t, u, id);
  }

  /** Inserting a live row that clashes with none keeps the table valid. */
  lemma {:induction false} InsertKeeps(t: Table, id: DocumentId, row: Document)
    requires TableValid(t) && id !in t && row.deleted == None && RowValid(t, row) && !Violates(t, id, row)
    ensures TableValid(t[id := row])
  {
    RowsStayValid(t, t[id := row], id);
    NewLiveRow(t, t[id := row], id);
  }

  /**
   * Restoring the superseded row while its failed successor is live breaks the filename index; once
   * the successor is soft-deleted, and no third row claims the name or the hash, nothing stands against it.
   */
  lemma {:induction false} RestoreNeedsCleanupFirst(t: Table, was: DocumentId, successor: DocumentId)
    requires was in t && IsLive(t, successor) && was != successor
    requires t[successor].namespace == t[was].namespace && t[successor].filename == t[was].filename
    ensures !UniqueLive(Undelete(t, was))
    ensures !Violates(SoftDelete(t, successor, PipelineFailure), was, t[was])
       <==> forall other | IsLive(t, other) && other != was && other != successor :: !Clash(t[other], t[was])
  {
    var u := Undelete(t, was);
    assert IsLive(u, was) && IsLive(u, successor) && Clash(u[was], u[successor]);
    var v := SoftDelete(t, successor, PipelineFailure);
    forall other ensures IsLive(v, other) <==> IsLive(t, other) && other != successor {
    }
  }
}
