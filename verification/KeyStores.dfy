/**
 * The in-memory key cache: entries by hash, and an index by the token's last four characters that
 * narrows a lookup. Whatever is added, revoked or loaded, a lookup answers as a scan of all entries.
 */
module KeyStores {
  import opened Support

  type KeyId = nat
  type Moment = nat

  /** An argon2id hash, told apart by its salt; it verifies exactly the secret it was made from. */
  datatype KeyHash = KeyHash(secret: string, salt: nat)

  predicate Verifies(token: string, hash: KeyHash) {
    hash.secret == token
  }

  /** The last four characters, or all of a shorter token. */
  function Preview(token: string): (p: string)
    ensures |p| == Min(|token|, 4) && exists rest :: token == rest + p
  {
    assert token == token[..Max(0, |token| - 4)] + token[Max(0, |token| - 4)..];
    if |token| >= 4 then token[|token| - 4..] else token
  }

  datatype KeyEntry = KeyEntry(id: KeyId, preview: string, scopes: set<string>, revoked: Option<Moment>,
                               expires: Option<Moment>, rpm: Option<int>)

  datatype KeyInfo = KeyInfo(id: KeyId, scopes: set<string>, rpm: Option<int>)

  /** A row of the api_keys table. */
  datatype KeyRow = KeyRow(id: KeyId, hash: KeyHash, preview: string, scopes: set<string>, revoked: Option<Moment>,
                           expires: Option<Moment>, rpm: Option<int>)

  predicate Usable(e: KeyEntry, now: Moment) {
    e.revoked == None && (e.expires.Some? ==> e.expires.value > now)
  }

  function InfoOf(e: KeyEntry): KeyInfo {
    KeyInfo(e.id, e.scopes, e.rpm)
  }

  /** What key generation and the table guarantee: one row per secret and per id, each with its secret's preview. */
  ghost predicate Fits(entries: map<KeyHash, KeyEntry>, hash: KeyHash, id: KeyId, preview: string) {
    && preview == Preview(hash.secret)
    && forall h | h in entries && h != hash :: h.secret != hash.secret && entries[h].id != id
  }

  class InMemoryKeyStore {
    var byHash: map<KeyHash, KeyEntry>
    var byPreview: map<string, set<KeyHash>>

    /** The preview index lists exactly the hashes whose entries carry the preview. */
    ghost predicate IndexAgrees()
      reads this
    {
      && (forall h | h in byHash :: byHash[h].preview in byPreview && h in byPreview[byHash[h].preview])
      && (forall p, h | p in byPreview && h in byPreview[p] :: h in byHash && byHash[h].preview == p)
    }

    ghost predicate Valid()
      reads this
    {
      IndexAgrees() && forall h | h in byHash :: Fits(byHash, h, byHash[h].id, byHash[h].preview)
    }

    constructor ()
      ensures Valid() && byHash == map[]
    {
      byHash, byPreview := map[], map[];
    }

    /** The scan of all entries: the one that verifies the token, if it is neither revoked nor expired. */
    ghost predicate ScanFinds(token: string, now: Moment, info: KeyInfo)
      reads this
    {
      exists h :: h in byHash && Verifies(token, h) && Usable(byHash[h], now) && info == InfoOf(byHash[h])
    }

    /** At most one entry verifies a token, so a scan has at most one answer. */
    lemma {:induction false} ScanIsUnique(token: string, now: Moment, a: KeyInfo, b: KeyInfo)
      requires Valid() && ScanFinds(token, now, a) && ScanFinds(token, now, b)
      ensures a == b
    {
      var g :| g in byHash && Verifies(token, g) && Usable(byHash[g], now) && a == InfoOf(byHash[g]);
      var h :| h in byHash && Verifies(token, h) && Usable(byHash[h], now) && b == InfoOf(byHash[h]);
      assert Fits(byHash, g, byHash[g].id, byHash[g].preview);
    }

    /**
     * Tries only the hashes behind the token's preview, in any order, and stops at the first that verifies.
     * A token is found exactly if a key was made from it that is neither revoked nor expired.
     */
    method LookupByToken(token: string, now: Moment) returns (info: Option<KeyInfo>)
      requires Valid()
      ensures info.Some? ==> ScanFinds(token, now, info.value)
      ensures info.None? ==> forall found :: !ScanFinds(token, now, found)
      ensures info.Some? <==> exists h :: && h in byHash && h.secret == token && byHash[h].revoked == None
                                          && (byHash[h].expires == None || byHash[h].expires.value > now)
      ensures info.Some? ==> exists h :: && h in byHash && h.secret == token && info.value.id == byHash[h].id
                                         && info.value.scopes == byHash[h].scopes && info.value.rpm == byHash[h].rpm
    {
      var preview := Preview(token);
      var candidates: set<KeyHash> := if preview in byPreview then byPreview[preview] else {};
      assert forall h | h in byHash && Verifies(token, h) :: Fits(byHash, h, byHash[h].id, byHash[h].preview);
      while candidates != {}
        invariant preview in byPreview ==> candidates <= byPreview[preview]
        invariant forall h | h in byHash && Verifies(token, h) :: h in candidates
        decreases |candidates|
      {
        var h :| h in candidates;
        candidates := candidates - {h};
        if h in byHash && Verifies(token, h) {
          assert Fits(byHash, h, byHash[h].id, byHash[h].preview);
          if byHash[h].revoked.Some? {
            return None;
          }
          if byHash[h].expires.Some? && byHash[h].expires.value <= now {
            return None;
          }
          return Some(InfoOf(byHash[h]));
        }
      }
      return None;
    }

    /** Both indexes take an entry in. */
    method Put(hash: KeyHash, entry: KeyEntry)
      requires Valid() && Fits(byHash, hash, entry.id, entry.preview)
      modifies this
      ensures Valid() && byHash == old(byHash)[hash := entry]
    {
      assert hash in byHash ==> Fits(byHash, hash, byHash[hash].id, byHash[hash].preview);
      byHash := byHash[hash := entry];
      byPreview := byPreview[entry.preview := (if entry.preview in byPreview then byPreview[entry.preview] else {})
                             + {hash}];
      forall h | h in byHash ensures Fits(byHash, h, byHash[h].id, byHash[h].preview) {
        assert h != hash ==> Fits(old(byHash), h, byHash[h].id, byHash[h].preview);
      }
    }

    method AddKey(id: KeyId, hash: KeyHash, preview: string, scopes: set<string>, expires: Option<Moment>,
        rpm: Option<int>)
      requires Valid() && Fits(byHash, hash, id, preview)
      modifies this
      ensures Valid() && byHash == old(byHash)[hash := KeyEntry(id, preview, scopes, None, expires, rpm)]
    {
      Put(hash, KeyEntry(id, preview, scopes, None, expires, rpm));
    }

    method RevokeKey(hash: KeyHash, now: Moment)
      requires Valid()
      modifies this
      ensures Valid()
      ensures byHash == if hash in old(byHash) then old(byHash)[hash := old(byHash)[hash].(revoked := Some(now))]
         else old(byHash)
      ensures hash in old(byHash) ==> forall later: Moment, info :: !ScanFinds(hash.secret, later, info)
    {
      if hash in byHash {
        assert Fits(byHash, hash, byHash[hash].id, byHash[hash].preview);
        Put(hash, byHash[hash].(revoked := Some(now)));
        assert Fits(byHash, hash, byHash[hash].id, byHash[hash].preview);
      }
    }

    /** Scans the entries for the id and revokes the first it meets; ids being unique, that is the only one. */
    method RevokeKeyById(id: KeyId, now: Moment)
      requires Valid()
      modifies this
      ensures Valid() && byHash.Keys == old(byHash).Keys
      ensures forall h | h in byHash ::
        byHash[h] == if old(byHash)[h].id == id then old(byHash)[h].(revoked := Some(now)) else old(byHash)[h]
    {
      var left := byHash.Keys;
      while left != {}
        invariant Valid() && byHash == old(byHash) && left <= byHash.Keys
        invariant forall h | h in byHash && h !in left :: byHash[h].id != id
        decreases |left|
      {
        var h :| h in left;
        if byHash[h].id == id {
          assert Fits(byHash, h, byHash[h].id, byHash[h].preview);
          Put(h, byHash[h].(revoked := Some(now)));
          return;
        }
        left := left - {h};
      }
    }

    /** The startup load: every row neither revoked nor expired, whatever is cached already. */
    method LoadFromDb(rows: seq<KeyRow>, now: Moment) returns (count: nat)
      requires Valid() && forall i | 0 <= i < |rows| :: Fits(byHash, rows[i].hash, rows[i].id, rows[i].preview)
      requires forall i, j | 0 <= i < j < |rows| ::
        rows[i].hash.secret != rows[j].hash.secret && rows[i].id != rows[j].id
      modifies this
      ensures Valid() && byHash == Loaded(old(byHash), rows, now)
      ensures count == |set i | 0 <= i < |rows| && rows[i].revoked == None
                                && (rows[i].expires == None || rows[i].expires.value > now)|
      ensures forall i | && 0 <= i < |rows| && rows[i].revoked == None
                         && (rows[i].expires == None || rows[i].expires.value > now) ::
        && rows[i].hash in byHash
        && byHash[rows[i].hash] == KeyEntry(rows[i].id, rows[i].preview, rows[i].scopes, None, rows[i].expires,
                                            rows[i].rpm)
      ensures forall h | h in byHash ::
        || (h in old(byHash) && byHash[h] == old(byHash)[h])
        || exists i :: && 0 <= i < |rows| && rows[i].hash == h && rows[i].revoked == None
                       && (rows[i].expires == None || rows[i].expires.value > now)
      ensures forall h | h in old(byHash) :: h in byHash
    {
      hide Preview, UsableRows;
      count := 0;
      assert |UsableRows(rows, 0, now)| == 0 by { NoRows(rows, now); }
      for n := 0 to |rows|
        invariant Valid() && byHash == Loaded(old(byHash), rows[..n], now) && count == |UsableRows(rows, n, now)|
        invariant forall i | n <= i < |rows| :: Fits(byHash, rows[i].hash, rows[i].id, rows[i].preview)
      {
        assert rows[..n + 1][..n] == rows[..n];
        UsableRowsStep(rows, n, now);
        if IsLoaded(rows[n], now) {
          Put(rows[n].hash, EntryOf(rows[n]));
          count := count + 1;
        }
      }
      assert rows[..|rows|] == rows;
      UsableRowsAre(rows, now);
      LoadedRows(old(byHash), rows, now);
    }
  }

  predicate IsLoaded(row: KeyRow, now: Moment) {
    row.revoked == None && (row.expires.Some? ==> row.expires.value > now)
  }

  function EntryOf(row: KeyRow): KeyEntry {
    KeyEntry(row.id, row.preview, row.scopes, None, row.expires, row.rpm)
  }

  /** The positions below n of the rows neither revoked nor expired. */
  ghost function UsableRows(rows: seq<KeyRow>, n: nat, now: Moment): set<int>
    requires n <= |rows|
  {
    set i | 0 <= i < n && rows[i].revoked == None && (rows[i].expires == None || rows[i].expires.value > now)
  }

  lemma {:induction false} NoRows(rows: seq<KeyRow>, now: Moment)
    ensures UsableRows(rows, 0, now) == {}
  {
  }

  /** Spelt out, the positions of the usable rows. */
  lemma {:induction false} UsableRowsAre(rows: seq<KeyRow>, now: Moment)
    ensures UsableRows(rows, |rows|, now)
         == set i | 0 <= i < |rows| && rows[i].revoked == None
                    && (rows[i].expires == None || rows[i].expires.value > now)
  {
  }

  lemma {:induction false} UsableRowsStep(rows: seq<KeyRow>, n: nat, now: Moment)
    requires n < |rows|
    ensures |UsableRows(rows, n + 1, now)| == |UsableRows(rows, n, now)| + if IsLoaded(rows[n], now) then 1 else 0
  {
    assert UsableRows(rows, n + 1, now) == UsableRows(rows, n, now) + if IsLoaded(rows[n], now) then {n} else {};
  }

  /** The cache after a load. */
  function Loaded(entries: map<KeyHash, KeyEntry>, rows: seq<KeyRow>, now: Moment): map<KeyHash, KeyEntry> {
    if rows == [] then entries
    else
      var before, row := Loaded(entries, rows[..|rows| - 1], now), rows[|rows| - 1];
      if IsLoaded(row, now) then before[row.hash := EntryOf(row)] else before
  }

  /** A load makes exactly the tokens of usable rows known, besides those known before. */
  lemma {:induction false} LoadedKnows(entries: map<KeyHash, KeyEntry>, rows: seq<KeyRow>, now: Moment, hash: KeyHash)
    requires forall i, j | 0 <= i < j < |rows| :: rows[i].hash != rows[j].hash
    ensures hash in Loaded(entries, rows, now) <==> hash in entries || exists i ::
      0 <= i < |rows| && rows[i].hash == hash && IsLoaded(rows[i], now)
    ensures forall i | 0 <= i < |rows| && rows[i].hash == hash && IsLoaded(rows[i], now) ::
      Loaded(entries, rows, now)[hash] == EntryOf(rows[i]) && Usable(EntryOf(rows[i]), now)
  {
    if rows != [] {
      var front := rows[..|rows| - 1];
      LoadedKnows(entries, front, now, hash);
      assert forall i | 0 <= i < |front| :: front[i] == rows[i];
      if i :| 0 <= i < |rows| && rows[i].hash == hash && IsLoaded(rows[i], now) {
        assert i < |front| ==> front[i].hash == hash;
      }
    }
  }

  /** What a load puts in the cache, row by row: the usable ones as they are, nothing else. */
  lemma {:induction false} LoadedRows(entries: map<KeyHash, KeyEntry>, rows: seq<KeyRow>, now: Moment)
    requires forall i, j | 0 <= i < j < |rows| :: rows[i].hash != rows[j].hash
    ensures var loaded := Loaded(entries, rows, now);
      && (forall i | i in UsableRows(rows, |rows|, now) ::
            && rows[i].hash in loaded
            && loaded[rows[i].hash] == KeyEntry(rows[i].id, rows[i].preview, rows[i].scopes, None, rows[i].expires,
                                                rows[i].rpm))
      && (forall h | h in loaded :: (h in entries && loaded[h] == entries[h])
                                    || exists i :: i in UsableRows(rows, |rows|, now) && rows[i].hash == h)
      && forall h | h in entries :: h in loaded
  {
    hide UsableRows, IsLoaded, Preview;
    if rows == [] {
      NoRows(rows, now);
    } else {
      var front, n := rows[..|rows| - 1], |rows| - 1;
      LoadedRows(entries, front, now);
      LastRow(rows, now);
      LoadedEntry(rows[n]);
    }
  }

  lemma {:induction false} LastRow(rows: seq<KeyRow>, now: Moment)
    requires rows != []
    ensures var front, n := rows[..|rows| - 1], |rows| - 1;
      && (forall i :: i in UsableRows(rows, |rows|, now) <==>
            i in UsableRows(front, n, now) || (i == n && IsLoaded(rows[n], now)))
      && forall i | i in UsableRows(front, n, now) :: 0 <= i < n
  {
  }

  lemma {:induction false} LoadedEntry(row: KeyRow)
    ensures EntryOf(row) == KeyEntry(row.id, row.preview, row.scopes, None, row.expires, row.rpm)
  {
  }
}
