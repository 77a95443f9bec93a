/**
 * Conversation memory. The persistent store numbers encrypted rows under a row lock and prunes the
 * oldest; the in-memory store keeps a trimmed list. Under any interleaving of transactions the first
 * answers like the second fed the same turns in commit order.
 */
module Conversations {
  import opened Support

  datatype Turn = Turn(question: string, answer: Option<string>)

  /** The newest n turns, oldest first. */
  function LastTurns(turns: seq<Turn>, n: nat): seq<Turn> {
    if |turns| <= n then turns else turns[|turns| - n..]
  }

  /** Trimming after every turn keeps what trimming once at the end would keep. */
  lemma {:induction false} TrimmingComposes(turns: seq<Turn>, turn: Turn, n: nat)
    requires n >= 1
    ensures LastTurns(LastTurns(turns, n) + [turn], n) == LastTurns(turns + [turn], n)
  {
  }

  type ConversationId = nat

  /** The reference: history in process memory. */
  class InMemoryConversationStore {
    const maxTurns: nat
    var store: map<ConversationId, seq<Turn>>

    constructor (maxTurns: nat)
      requires maxTurns >= 1
      ensures this.maxTurns == maxTurns && store == map[] && fresh(this)
    {
      this.maxTurns := maxTurns;
      store := map[];
    }

    function History(id: ConversationId): seq<Turn>
      reads this
    {
      if id in store then store[id] else []
    }

    method AddTurn(id: ConversationId, turn: Turn)
      requires maxTurns >= 1
      modifies this
      ensures store == old(store)[id := LastTurns(old(History(id)) + [turn], maxTurns)]
    {
      if id !in store {
        store := store[id := []];
      }
      store := store[id := store[id] + [turn]];
      if |store[id]| > maxTurns {
        store := store[id := store[id][|store[id]| - maxTurns..]];
      }
    }

    method Clear(id: ConversationId)
      modifies this
      ensures store == old(store) - {id}
    {
      store := store - {id};
    }
  }

  /** A store refuses to be built without room for one turn. */
  method CreateInMemoryStore(maxTurns: int) returns (r: Option<InMemoryConversationStore>)
    ensures r.Some? <==> maxTurns >= 1
    ensures r.Some? ==> fresh(r.value) && r.value.maxTurns == maxTurns && r.value.store == map[]
  {
    if maxTurns < 1 {
      return None;
    }
    var created := new InMemoryConversationStore(maxTurns);
    return Some(created);
  }

  // ---- Encrypted, numbered rows ----

  /** A ciphertext opens only under the key it was made with. */
  datatype Cipher = Cipher(key: string, salt: nat, text: string)

  function Encrypt(text: string, key: string, salt: nat): Cipher {
    Cipher(key, salt, text)
  }

  function Decrypt(c: Cipher, key: string): Option<string> {
    if c.key == key then Some(c.text) else None
  }

  datatype Row = Row(number: nat, question: Cipher, answer: Option<Cipher>)

  function EncryptTurn(turn: Turn, number: nat, key: string, salt: nat): Row {
    Row(number, Encrypt(turn.question, key, salt),
        if turn.answer.Some? then Some(Encrypt(turn.answer.value, key, salt)) else None)
  }

  /** None if the key does not open the row. */
  function DecryptRow(row: Row, key: string): Option<Turn> {
    var question := Decrypt(row.question, key);
    if question.None? then None
    else if row.answer.None? then Some(Turn(question.value, None))
    else
      var answer := Decrypt(row.answer.value, key);
      if answer.None? then None else Some(Turn(question.value, answer))
  }

  /**
   * A stored turn opens to what it was under the key it was stored with, and to nothing under any other. The
   * salt keeps equal texts apart.
   */
  lemma {:induction false} OnlyItsKeyOpens(turn: Turn, number: nat, key: string, salt: nat, other: string)
    ensures EncryptTurn(turn, number, key, salt).number == number
    ensures DecryptRow(EncryptTurn(turn, number, key, salt), other) == if other == key then Some(turn) else None
    ensures forall again: nat | again != salt ::
      EncryptTurn(turn, number, key, again).question != EncryptTurn(turn, number, key, salt).question
  {
  }

  /** The table holds exactly the newest turns, numbered as committed. */
  ghost predicate RowsHold(rows: seq<Row>, turns: seq<Turn>, key: string, maxTurns: nat) {
    && |rows| == Min(|turns|, maxTurns)
    && forall i | 0 <= i < |rows| ::
         rows[i].number == |turns| - |rows| + i + 1 && DecryptRow(rows[i], key) == Some(turns[|turns| - |rows| + i])
  }

  predicate NumberTaken(rows: seq<Row>, number: nat) {
    exists i :: 0 <= i < |rows| && rows[i].number == number
  }

  /** Turn numbers are unique, increasing and gapless up to the conversation's turn count. */
  lemma {:induction false} NumbersGapless(rows: seq<Row>, turns: seq<Turn>, key: string, maxTurns: nat)
    requires RowsHold(rows, turns, key, maxTurns)
    ensures forall i, j | 0 <= i < j < |rows| :: rows[i].number < rows[j].number
    ensures forall n: nat :: NumberTaken(rows, n) <==> |turns| - Min(|turns|, maxTurns) < n <= |turns|
  {
    forall n: nat ensures NumberTaken(rows, n) <==> |turns| - |rows| < n <= |turns| {
      if |turns| - |rows| < n <= |turns| {
        assert rows[n - (|turns| - |rows|) - 1].number == n;
      }
    }
  }

  function Above(rows: seq<Row>, threshold: nat): seq<Row> {
    if rows == [] then [] else (if rows[0].number > threshold then [rows[0]] else []) + Above(rows[1..], threshold)
  }

  lemma {:induction false} AboveAll(rows: seq<Row>, threshold: nat)
    requires forall i | 0 <= i < |rows| :: rows[i].number > threshold
    ensures Above(rows, threshold) == rows
  {
    if rows != [] {
      AboveAll(rows[1..], threshold);
    }
  }

  // ---- What a transaction has written but not committed ----

  datatype Conversation = Conversation(turnCount: nat, deleted: bool)

  datatype Write = InsertTurn(row: Row) | SetCount(count: nat) | PruneUpTo(threshold: nat)

  datatype Phase = Waiting | Locked | Inserted | Counted | Ready

  datatype Transaction = Transaction(turn: Turn, salt: nat, phase: Phase, number: nat, pending: seq<Write>)

  type TransactionId = nat

  function PruneFor(number: nat, maxTurns: nat): seq<Write> {
    if number > maxTurns then [PruneUpTo(number - maxTurns)] else []
  }

  /** The writes a transaction has pending in each phase. */
  function PendingIn(tx: Transaction, key: string, maxTurns: nat): seq<Write> {
    var insert := InsertTurn(EncryptTurn(tx.turn, tx.number, key, tx.salt));
    match tx.phase
    case Waiting => []
    case Locked => []
    case Inserted => [insert]
    case Counted => [insert, SetCount(tx.number)]
    case Ready => [insert, SetCount(tx.number)] + PruneFor(tx.number, maxTurns)
  }

  function Applied(c: Conversation, rows: seq<Row>, w: Write): (Conversation, seq<Row>) {
    match w
    case InsertTurn(row) => (c, rows + [row])
    case SetCount(count) => (c.(turnCount := count), rows)
    case PruneUpTo(threshold) => (c, Above(rows, threshold))
  }

  function AppliedAll(c: Conversation, rows: seq<Row>, writes: seq<Write>): (Conversation, seq<Row>)
    decreases |writes|
  {
    if writes == [] then (c, rows)
    else
      var next := Applied(c, rows, writes[0]);
      AppliedAll(next.0, next.1, writes[1..])
  }

  /** The window after one more row: the row at its end, and one fewer at its start if it was full. */
  lemma {:induction false} WindowMoves(rows: seq<Row>, turns: seq<Turn>, row: Row, turn: Turn, key: string,
      maxTurns: nat)
    requires RowsHold(rows, turns, key, maxTurns) && maxTurns >= 1
    requires row.number == |turns| + 1 && DecryptRow(row, key) == Some(turn)
    ensures RowsHold(if |rows| == maxTurns then (rows + [row])[1..] else rows + [row], turns + [turn], key, maxTurns)
  {
    var drop := if |rows| == maxTurns then 1 else 0;
    var kept, more := (rows + [row])[drop..], turns + [turn];
    assert |kept| == Min(|more|, maxTurns);
    forall i | 0 <= i < |kept|
      ensures kept[i].number == |more| - |kept| + i + 1 && DecryptRow(kept[i], key) == Some(more[|more| - |kept| + i])
    {
      if i + drop < |rows| {
        assert kept[i] == rows[i + drop] && more[|more| - |kept| + i] == turns[|turns| - |rows| + i + drop];
      } else {
        assert kept[i] == row && |more| - |kept| + i == |turns|;
      }
    }
  }

  /** The prune statement deletes exactly the row that fell out of the window. */
  lemma {:induction false} PruneDropsOldest(rows: seq<Row>, turns: seq<Turn>, row: Row, key: string, maxTurns: nat)
    requires RowsHold(rows, turns, key, maxTurns) && maxTurns >= 1 && row.number == |turns| + 1 > maxTurns
    ensures |rows| == maxTurns && Above(rows + [row], row.number - maxTurns) == (rows + [row])[1..]
  {
    var more := rows + [row];
    forall i | 0 <= i < |more[1..]| ensures more[1..][i].number > row.number - maxTurns {
      assert more[1..][i] == more[i + 1];
    }
    AboveAll(more[1..], row.number - maxTurns);
  }

  lemma {:induction false} AppliedOne(c: Conversation, rows: seq<Row>, w: Write, rest: seq<Write>)
    ensures AppliedAll(c, rows, [w] + rest) == AppliedAll(Applied(c, rows, w).0, Applied(c, rows, w).1, rest)
  {
    assert ([w] + rest)[1..] == rest;
  }

  /** Committing a finished transaction numbers its turn next and drops whatever fell out of the window. */
  lemma {:induction false} CommitKeepsWindow(rows: seq<Row>, turns: seq<Turn>, c: Conversation, tx: Transaction,
      key: string, maxTurns: nat)
    requires RowsHold(rows, turns, key, maxTurns) && maxTurns >= 1 && c.turnCount == |turns|
    requires tx.phase == Ready && tx.number == |turns| + 1 && tx.pending == PendingIn(tx, key, maxTurns)
    ensures var after := AppliedAll(c, rows, tx.pending);
      && after.0 == c.(turnCount := |turns| + 1)
      && RowsHold(after.1, turns + [tx.turn], key, maxTurns)
  {
    hide RowsHold;
    var row, last := EncryptTurn(tx.turn, tx.number, key, tx.salt), PruneFor(tx.number, maxTurns);
    var counted := c.(turnCount := tx.number);
    assert tx.pending == [InsertTurn(row)] + ([SetCount(tx.number)] + last);
    AppliedOne(c, rows, InsertTurn(row), [SetCount(tx.number)] + last);
    AppliedOne(c, rows + [row], SetCount(tx.number), last);
    WindowMoves(rows, turns, row, tx.turn, key, maxTurns);
    WindowSize(rows, turns, key, maxTurns);
    if tx.number > maxTurns {
      assert last == [PruneUpTo(tx.number - maxTurns)] + [];
      AppliedOne(counted, rows + [row], PruneUpTo(tx.number - maxTurns), []);
      PruneDropsOldest(rows, turns, row, key, maxTurns);
    }
  }

  lemma {:induction false} WindowSize(rows: seq<Row>, turns: seq<Turn>, key: string, maxTurns: nat)
    requires RowsHold(rows, turns, key, maxTurns)
    ensures |rows| == Min(|turns|, maxTurns)
  {
  }

  /** Any statement of any transaction, and the other operations on the conversation. */
  datatype Step =
    | Begin(tx: TransactionId, turn: Turn, salt: nat) | Lock(tx: TransactionId) | Insert(tx: TransactionId)
    | Count(tx: TransactionId)
    | Prune(tx: TransactionId) | Commit(tx: TransactionId) | Abort(tx: TransactionId)
    | EnsureExists | SoftDelete | Clear

  /** The transactions once one of them moved from one phase to the next. */
  function Advance(txs: map<TransactionId, Transaction>, id: TransactionId, from: Phase, to: Phase, key: string,
      maxTurns: nat): map<TransactionId, Transaction> {
    if id in txs && txs[id].phase == from then
      var tx := txs[id].(phase := to);
      txs[id := tx.(pending := PendingIn(tx, key, maxTurns))]
    else txs
  }

  /** Everything committed and everything in flight. */
  datatype State = State(conversation: Option<Conversation>, rows: seq<Row>, holder: Option<TransactionId>,
                         transactions: map<TransactionId, Transaction>)

  /** The protocol: what one statement does under READ COMMITTED with the row lock. */
  function Next(s: State, step: Step, key: string, maxTurns: nat): State {
    match step
    case Begin(id, turn, salt) =>
      if id in s.transactions then s
      else s.(transactions := s.transactions[id := Transaction(turn, salt, Waiting, 0, [])])
    case Lock(id) =>
      if !(id in s.transactions && s.transactions[id].phase == Waiting && s.holder.None?) then s
      else if s.conversation.Some? && !s.conversation.value.deleted
      then s.(holder := Some(id),
              transactions := s.transactions[id := s.transactions[id].(phase := Locked,
                                                                       number := s.conversation.value.turnCount + 1)])
      else s.(transactions := s.transactions - {id})
    case Insert(id) => s.(transactions := Advance(s.transactions, id, Locked, Inserted, key, maxTurns))
    case Count(id) => s.(transactions := Advance(s.transactions, id, Inserted, Counted, key, maxTurns))
    case Prune(id) => s.(transactions := Advance(s.transactions, id, Counted, Ready, key, maxTurns))
    case Commit(id) =>
      if id in s.transactions && s.transactions[id].phase == Ready && s.conversation.Some? then
        var after := AppliedAll(s.conversation.value, s.rows, s.transactions[id].pending);
        State(Some(after.0), after.1, None, s.transactions - {id})
      else s
    case Abort(id) =>
      s.(transactions := s.transactions - {id}, holder := if s.holder == Some(id) then None else s.holder)
    case EnsureExists => if s.conversation.None? then s.(conversation := Some(Conversation(0, false))) else s
    case SoftDelete =>
      if s.holder.None? && s.conversation.Some? then s.(conversation := Some(s.conversation.value.(deleted := true)))
      else s
    case Clear => if s.holder.None? then s.(conversation := None, rows := []) else s
  }

  function After(s: State, steps: seq<Step>, key: string, maxTurns: nat): State {
    if steps == [] then s else Next(After(s, steps[..|steps| - 1], key, maxTurns), steps[|steps| - 1], key, maxTurns)
  }

  /** The turns committed by a run since the conversation row was last created, in commit order. */
  function CommittedBy(s: State, committed: seq<Turn>, steps: seq<Step>, key: string, maxTurns: nat): seq<Turn> {
    if steps == [] then committed
    else
      var front := steps[..|steps| - 1];
      var before, turns := After(s, front, key, maxTurns), CommittedBy(s, committed, front, key, maxTurns);
      CommittedStep(before, turns, steps[|steps| - 1])
  }

  function CommittedStep(s: State, turns: seq<Turn>, step: Step): seq<Turn> {
    match step
    case Commit(id) =>
      if id in s.transactions && s.transactions[id].phase == Ready
      then turns + [s.transactions[id].turn] else turns
    case Clear => if s.holder.None? then [] else turns
    case _ => turns
  }

  /** The statements of one add_turn with no other in between, up to its commit. */
  function Prepared(s: State, id: TransactionId, turn: Turn, salt: nat, key: string, maxTurns: nat): State {
    var locked := Next(Next(s, Begin(id, turn, salt), key, maxTurns), Lock(id), key, maxTurns);
    Next(Next(Next(locked, Insert(id), key, maxTurns), Count(id), key, maxTurns), Prune(id), key, maxTurns)
  }

  /** Writing turns never touches the deletion mark. */
  lemma {:induction false} AppliedKeepsDeleted(c: Conversation, rows: seq<Row>, writes: seq<Write>)
    ensures AppliedAll(c, rows, writes).0.deleted == c.deleted
    decreases |writes|
  {
    if writes != [] {
      var next := Applied(c, rows, writes[0]);
      AppliedKeepsDeleted(next.0, next.1, writes[1..]);
    }
  }

  lemma {:induction false} AloneCommits(s: State, id: TransactionId, turn: Turn, salt: nat, key: string, maxTurns: nat)
    requires s.holder.None? && id !in s.transactions
    ensures var ready := Prepared(s, id, turn, salt, key, maxTurns); var done := Next(ready, Commit(id), key, maxTurns);
      && done.holder.None? && done.transactions == s.transactions
      && (done.conversation.Some? <==> s.conversation.Some?)
      && (s.conversation.Some? ==> done.conversation.value.deleted == s.conversation.value.deleted)
      && if s.conversation.Some? && !s.conversation.value.deleted
         then id in ready.transactions && ready.transactions[id].phase == Ready && ready.transactions[id].turn == turn
         else ready == s && done == s
  {
    hide PendingIn, AppliedAll;
    var begun := Next(s, Begin(id, turn, salt), key, maxTurns);
    var locked := Next(begun, Lock(id), key, maxTurns);
    assert begun.transactions - {id} == s.transactions;
    if id in locked.transactions {
      var inserted := Next(locked, Insert(id), key, maxTurns);
      var counted := Next(inserted, Count(id), key, maxTurns);
      var ready := Next(counted, Prune(id), key, maxTurns);
      assert ready.transactions[id].phase == Ready && ready.transactions - {id} == s.transactions;
      AppliedKeepsDeleted(s.conversation.value, s.rows, ready.transactions[id].pending);
    }
  }

  // ---- When a conversation is live ----

  /** Is the row lock free after the first n steps? A clear or a soft deletion takes effect exactly then. */
  ghost predicate Free(s: State, steps: seq<Step>, n: nat, key: string, maxTurns: nat)
    requires n <= |steps|
  {
    After(s, steps[..n], key, maxTurns).holder.None?
  }

  /** Some clear strictly between the two steps took effect. */
  ghost predicate ClearedBetween(s: State, steps: seq<Step>, from: nat, to: nat, key: string, maxTurns: nat)
    requires to <= |steps|
  {
    exists c :: from < c < to && steps[c] == Clear && Free(s, steps, c, key, maxTurns)
  }

  /** No clear and no soft deletion strictly between the two steps took effect. */
  ghost predicate KeptBetween(s: State, steps: seq<Step>, from: nat, to: nat, key: string, maxTurns: nat)
    requires to <= |steps|
  {
    forall k | from < k < to && (steps[k] == Clear || steps[k] == SoftDelete) :: !Free(s, steps, k, key, maxTurns)
  }

  /** Every creation before the step was undone by a clear before it. */
  ghost predicate NothingLeft(s: State, steps: seq<Step>, n: nat, key: string, maxTurns: nat)
    requires n <= |steps|
  {
    forall f | 0 <= f < n && steps[f] == EnsureExists :: ClearedBetween(s, steps, f, n, key, maxTurns)
  }

  /** The creation that made a row, and which no clear or soft deletion followed. */
  ghost predicate CreatedAt(s: State, steps: seq<Step>, e: nat, n: nat, key: string, maxTurns: nat)
    requires e < n <= |steps|
  {
    && steps[e] == EnsureExists && NothingLeft(s, steps, e, key, maxTurns) && KeptBetween(s, steps, e, n, key, maxTurns)
  }

  ghost predicate LiveSince(s: State, steps: seq<Step>, n: nat, key: string, maxTurns: nat)
    requires n <= |steps|
  {
    exists e: nat :: e < n && CreatedAt(s, steps, e, n, key, maxTurns)
  }

  /** What a statement does to the conversation row, besides its turn count. */
  lemma {:induction false} RowMoves(s: State, step: Step, key: string, maxTurns: nat)
    ensures var was, now := s.conversation, Next(s, step, key, maxTurns).conversation;
      match step
      case EnsureExists => now == if was.None? then Some(Conversation(0, false)) else was
      case Clear => now == if s.holder.None? then None else was
      case SoftDelete => && (now.Some? <==> was.Some?)
                         && (now.Some? ==> (now.value.deleted <==> was.value.deleted || s.holder.None?))
      case _ => (now.Some? <==> was.Some?) && (now.Some? ==> now.value.deleted == was.value.deleted)
  {
    if step.Commit? && step.tx in s.transactions && s.conversation.Some? {
      AppliedKeepsDeleted(s.conversation.value, s.rows, s.transactions[step.tx].pending);
    }
  }

  lemma {:induction false} AfterOneMore(s: State, steps: seq<Step>, n: nat, key: string, maxTurns: nat)
    requires n < |steps|
    ensures After(s, steps[..n + 1], key, maxTurns)
         == Next(After(s, steps[..n], key, maxTurns), steps[n], key, maxTurns)
  {
    assert steps[..n + 1][..n] == steps[..n];
  }

  lemma {:induction false} NothingLeftStep(s: State, steps: seq<Step>, n: nat, key: string, maxTurns: nat)
    requires n < |steps|
    ensures NothingLeft(s, steps, n + 1, key, maxTurns)
       <==> && steps[n] != EnsureExists
            && (NothingLeft(s, steps, n, key, maxTurns) || (steps[n] == Clear && Free(s, steps, n, key, maxTurns)))
  {
    hide Free;
    var m := n + 1;
    if steps[n] == EnsureExists {
      assert !ClearedBetween(s, steps, n, m, key, maxTurns);
    } else if steps[n] == Clear && Free(s, steps, n, key, maxTurns) {
      assert forall f | 0 <= f < n :: ClearedBetween(s, steps, f, m, key, maxTurns);
    } else {
      assert forall f | 0 <= f < n ::
        ClearedBetween(s, steps, f, n, key, maxTurns) <==> ClearedBetween(s, steps, f, m, key, maxTurns);
    }
  }

  /** The conversation has a row exactly when some creation was not cleared since. */
  lemma {:induction false} ExistsIff(s: State, steps: seq<Step>, n: nat, key: string, maxTurns: nat)
    requires s.conversation.None? && n <= |steps|
    ensures After(s, steps[..n], key, maxTurns).conversation.None? <==> NothingLeft(s, steps, n, key, maxTurns)
  {
    assert n == 0 ==> NothingLeft(s, steps, 0, key, maxTurns);
    hide Next, NothingLeft;
    if n > 0 {
      ExistsIff(s, steps, n - 1, key, maxTurns);
      AfterOneMore(s, steps, n - 1, key, maxTurns);
      RowMoves(After(s, steps[..n - 1], key, maxTurns), steps[n - 1], key, maxTurns);
      NothingLeftStep(s, steps, n - 1, key, maxTurns);
    }
  }

  /**
   * From a store without the row: the conversation is live exactly when one of the creations made the row
   * and no clear or soft deletion took effect after it. Those two wait, and so do nothing, exactly while
   * a transaction holds the row lock.
   */
  lemma {:induction false} LiveIff(s: State, steps: seq<Step>, n: nat, key: string, maxTurns: nat)
    requires s.conversation.None? && n <= |steps|
    ensures var c := After(s, steps[..n], key, maxTurns).conversation;
      c.Some? && !c.value.deleted <==> LiveSince(s, steps, n, key, maxTurns)
  {
    assert n > 0 ==> (Free(s, steps, n - 1, key, maxTurns) <==> After(s, steps[..n - 1], key, maxTurns).holder.None?);
    hide Next, NothingLeft, Free, CreatedAt;
    if n > 0 {
      var before := After(s, steps[..n - 1], key, maxTurns);
      LiveIff(s, steps, n - 1, key, maxTurns);
      ExistsIff(s, steps, n - 1, key, maxTurns);
      AfterOneMore(s, steps, n - 1, key, maxTurns);
      RowMoves(before, steps[n - 1], key, maxTurns);
      CreatedStep(s, steps, n - 1, key, maxTurns);
    }
  }

  lemma {:induction false} CreatedStep(s: State, steps: seq<Step>, n: nat, key: string, maxTurns: nat)
    requires n < |steps|
    ensures LiveSince(s, steps, n + 1, key, maxTurns)
       <==> || (steps[n] == EnsureExists && NothingLeft(s, steps, n, key, maxTurns))
            || (&& LiveSince(s, steps, n, key, maxTurns)
                && !((steps[n] == Clear || steps[n] == SoftDelete) && Free(s, steps, n, key, maxTurns)))
  {
    hide NothingLeft, Free;
    var m := n + 1;
    assert CreatedAt(s, steps, n, m, key, maxTurns)
      <==> steps[n] == EnsureExists && NothingLeft(s, steps, n, key, maxTurns);
    forall e: nat | e < n
      ensures CreatedAt(s, steps, e, m, key, maxTurns)
         <==> && CreatedAt(s, steps, e, n, key, maxTurns)
              && !((steps[n] == Clear || steps[n] == SoftDelete) && Free(s, steps, n, key, maxTurns))
    {
    }
  }

  /** A held lock was taken by a Lock step of a transaction that was not aborted since. */
  lemma {:induction false} HeldSince(s: State, steps: seq<Step>, n: nat, key: string, maxTurns: nat)
    returns (l: nat, id: TransactionId)
    requires s.holder.None? && n <= |steps| && !Free(s, steps, n, key, maxTurns)
    ensures l < n && steps[l] == Lock(id) && Free(s, steps, l, key, maxTurns)
    ensures After(s, steps[..n], key, maxTurns).holder == Some(id)
    ensures forall k | l < k < n :: steps[k] != Abort(id)
  {
    var before := After(s, steps[..n - 1], key, maxTurns);
    AfterOneMore(s, steps, n - 1, key, maxTurns);
    if before.holder.None? {
      l, id := n - 1, steps[n - 1].tx;
    } else {
      l, id := HeldSince(s, steps, n - 1, key, maxTurns);
    }
  }

  function ByNumber(row: Row): real {
    row.number as real
  }

  /** The stored rows are in turn order already, and decrypt to the newest turns one by one. */
  lemma {:induction false} RowsInOrder(rows: seq<Row>, turns: seq<Turn>, key: string, maxTurns: nat)
    requires RowsHold(rows, turns, key, maxTurns)
    ensures SortBy(rows, ByNumber) == rows && |rows| == |LastTurns(turns, maxTurns)|
    ensures forall i | 0 <= i < |rows| :: DecryptRow(rows[i], key) == Some(LastTurns(turns, maxTurns)[i])
  {
    SortByIdentity(rows, ByNumber);
  }

  /**
   * One conversation in the database. Each method is one statement, so a run interleaves them freely; a
   * statement whose turn has not come, or that would wait for the row lock, does nothing.
   */
  class PersistentConversationStore {
    const key: string
    const maxTurns: nat
    var conversation: Option<Conversation>
    var rows: seq<Row>
    var holder: Option<TransactionId>
    var transactions: map<TransactionId, Transaction>
    /** The turns committed since the conversation row was created, in commit order. */
    ghost var committed: seq<Turn>

    ghost predicate TransactionValid(id: TransactionId, tx: Transaction)
      reads this
    {
      && (tx.phase == Waiting <==> holder != Some(id))
      && (tx.phase != Waiting ==> tx.number == |committed| + 1)
      && tx.pending == PendingIn(tx, key, maxTurns)
    }

    ghost predicate Valid()
      reads this
    {
      && maxTurns >= 1
      && RowsHold(rows, committed, key, maxTurns)
      && (if conversation.None? then committed == [] else conversation.value.turnCount == |committed|)
      && (forall id | id in transactions :: TransactionValid(id, transactions[id]))
      && (holder.Some? ==> holder.value in transactions && conversation.Some? && !conversation.value.deleted)
    }

    function Now(): State
      reads this
    {
      State(conversation, rows, holder, transactions)
    }

    predicate IsLive()
      reads this
    {
      conversation.Some? && !conversation.value.deleted
    }

    constructor (key: string, maxTurns: nat)
      requires key != "" && maxTurns >= 1
      ensures Valid() && this.key == key && this.maxTurns == maxTurns && conversation == None && committed == []
      ensures holder == None && transactions == map[]
    {
      this.key, this.maxTurns := key, maxTurns;
      conversation, rows, holder, transactions, committed := None, [], None, map[], [];
    }

    /** INSERT .. ON CONFLICT DO NOTHING on the conversation row. */
    method EnsureConversation()
      requires Valid()
      modifies this`conversation
      ensures Valid() && Now() == Next(old(Now()), EnsureExists, key, maxTurns)
      ensures old(conversation) == None ==>
        IsLive() && conversation.value.turnCount == 0 && rows == [] && committed == []
      ensures old(conversation) != None ==> conversation == old(conversation)
    {
      if conversation.None? {
        conversation := Some(Conversation(0, false));
      }
    }

    /**
     * soft_delete: an UPDATE of the conversation row, which waits for whoever holds its lock; a second one
     * changes nothing.
     */
    method MarkDeleted()
      requires Valid()
      modifies this`conversation
      ensures Valid() && Now() == Next(old(Now()), SoftDelete, key, maxTurns)
      ensures if old(holder).None? then !IsLive() else conversation == old(conversation)
      ensures conversation.Some? <==> old(conversation).Some?
    {
      if holder.None? && conversation.Some? {
        conversation := Some(conversation.value.(deleted := true));
      }
    }

    /** The DELETE of the conversation row cascades to its turns. */
    method ClearConversation() returns (done: bool)
      requires Valid()
      modifies this`conversation, this`rows, this`committed
      ensures Valid() && (done <==> holder.None?) && Now() == Next(old(Now()), Clear, key, maxTurns)
      ensures committed == CommittedStep(old(Now()), old(committed), Clear)
      ensures if done then conversation == None && rows == [] && committed == []
              else conversation == old(conversation) && rows == old(rows) && committed == old(committed)
    {
      done := holder.None?;
      if done {
        conversation, rows, committed := None, [], [];
      }
    }

    method BeginTurn(id: TransactionId, turn: Turn, salt: nat)
      requires Valid()
      modifies this`transactions
      ensures Valid() && Now() == Next(old(Now()), Begin(id, turn, salt), key, maxTurns)
    {
      if id !in transactions {
        transactions := transactions[id := Transaction(turn, salt, Waiting, 0, [])];
      }
    }

    /** SELECT turn_count .. FOR UPDATE: waits for the lock; without a live conversation the turn is dropped. */
    method LockRow(id: TransactionId)
      requires Valid()
      modifies this`transactions, this`holder
      ensures Valid() && Now() == Next(old(Now()), Lock(id), key, maxTurns)
    {
      if id in transactions && transactions[id].phase == Waiting && holder.None? {
        if IsLive() {
          holder := Some(id);
          var tx := transactions[id].(phase := Locked, number := conversation.value.turnCount + 1);
          transactions := transactions[id := tx];
        } else {
          transactions := transactions - {id};
        }
      }
    }

    /** The INSERT checks the unique constraint on turn numbers; under the lock it never fires. */
    method InsertRow(id: TransactionId)
      requires Valid()
      modifies this`transactions
      ensures Valid() && Now() == Next(old(Now()), Insert(id), key, maxTurns)
    {
      if id in transactions && transactions[id].phase == Locked {
        var tx := transactions[id];
        assert TransactionValid(id, tx);
        NumbersGapless(rows, committed, key, maxTurns);
        if NumberTaken(rows, tx.number) {
          assert false;
        }
        assert tx.pending + [InsertTurn(EncryptTurn(tx.turn, tx.number, key, tx.salt))]
             == PendingIn(tx.(phase := Inserted), key, maxTurns);
        var insert := InsertTurn(EncryptTurn(tx.turn, tx.number, key, tx.salt));
        transactions := transactions[id := tx.(phase := Inserted, pending := tx.pending + [insert])];
      }
    }

    method UpdateCount(id: TransactionId)
      requires Valid()
      modifies this`transactions
      ensures Valid() && Now() == Next(old(Now()), Count(id), key, maxTurns)
    {
      if id in transactions && transactions[id].phase == Inserted {
        var tx := transactions[id];
        assert TransactionValid(id, tx);
        assert tx.pending + [SetCount(tx.number)] == PendingIn(tx.(phase := Counted), key, maxTurns);
        transactions := transactions[id := tx.(phase := Counted, pending := tx.pending + [SetCount(tx.number)])];
      }
    }

    method PruneOldest(id: TransactionId)
      requires Valid()
      modifies this`transactions
      ensures Valid() && Now() == Next(old(Now()), Prune(id), key, maxTurns)
    {
      if id in transactions && transactions[id].phase == Counted {
        var tx := transactions[id];
        assert TransactionValid(id, tx);
        var pending := tx.pending;
        if tx.number > maxTurns {
          pending := pending + [PruneUpTo(tx.number - maxTurns)];
        }
        assert pending == PendingIn(tx.(phase := Ready), key, maxTurns);
        transactions := transactions[id := tx.(phase := Ready, pending := pending)];
      }
    }

    /** Applies the pending writes, in order, and releases the lock. */
    method CommitTurn(id: TransactionId)
      requires Valid()
      modifies this
      ensures Valid() && Now() == Next(old(Now()), Commit(id), key, maxTurns)
      ensures committed == CommittedStep(old(Now()), old(committed), Commit(id))
    {
      if id in transactions && transactions[id].phase == Ready {
        var tx := transactions[id];
        ghost var c, before := conversation.value, rows;
        CommitKeepsWindow(rows, committed, conversation.value, tx, key, maxTurns);
        for n := 0 to |tx.pending|
          invariant conversation.Some?
          invariant AppliedAll(conversation.value, rows, tx.pending[n..]) == AppliedAll(c, before, tx.pending)
          invariant holder == old(holder) && transactions == old(transactions) && committed == old(committed)
        {
          assert tx.pending[n..][1..] == tx.pending[n + 1..];
          var next := Applied(conversation.value, rows, tx.pending[n]);
          conversation, rows := Some(next.0), next.1;
        }
        assert tx.pending[|tx.pending|..] == [];
        committed := committed + [tx.turn];
        transactions := transactions - {id};
        holder := None;
      }
    }

    /** Any failure rolls back: pending writes are dropped and the lock is released. */
    method AbortTurn(id: TransactionId)
      requires Valid()
      modifies this`transactions, this`holder
      ensures Valid() && Now() == Next(old(Now()), Abort(id), key, maxTurns)
    {
      if holder == Some(id) {
        holder := None;
      }
      transactions := transactions - {id};
    }

    /** One add_turn call that meets no other transaction. */
    method AddTurn(id: TransactionId, turn: Turn, salt: nat)
      requires Valid() && holder == None && id !in transactions
      modifies this
      ensures Valid() && holder == None && transactions == old(transactions)
      ensures committed == if old(IsLive()) then old(committed) + [turn] else old(committed)
      ensures IsLive() == old(IsLive())
      ensures !old(IsLive()) ==> conversation == old(conversation) && rows == old(rows)
    {
      hide RowsHold, TransactionValid, Next;
      ghost var s := Now();
      BeginTurn(id, turn, salt);
      LockRow(id);
      InsertRow(id);
      UpdateCount(id);
      PruneOldest(id);
      AloneCommits(s, id, turn, salt, key, maxTurns);
      CommitTurn(id);
    }

    /** The turns as stored, decrypted and ordered by number, in one statement. */
    method FetchTurns() returns (history: seq<Turn>)
      requires Valid()
      ensures history == LastTurns(committed, maxTurns)
    {
      hide RowsHold, LastTurns, TransactionValid, DecryptRow, SortBy;
      RowsInOrder(rows, committed, key, maxTurns);
      var sorted := SortBy(rows, ByNumber);
      history := [];
      for n := 0 to |sorted|
        invariant history == LastTurns(committed, maxTurns)[..n]
      {
        history := history + [DecryptRow(sorted[n], key).value];
      }
    }

    /** The history of a live conversation; empty for a missing or soft-deleted one. */
    method GetHistory() returns (history: seq<Turn>)
      requires Valid()
      ensures history == if IsLive() then LastTurns(committed, maxTurns) else []
    {
      if !IsLive() {
        return [];
      }
      history := FetchTurns();
    }

    /** One statement of a run; a commit or a clear is passed on to the in-memory store. */
    method Take(step: Step, mirror: InMemoryConversationStore, id: ConversationId)
      requires Valid() && mirror.maxTurns == maxTurns && mirror.History(id) == LastTurns(committed, maxTurns)
      modifies this, mirror
      ensures Now() == Next(old(Now()), step, key, maxTurns)
      ensures committed == CommittedStep(old(Now()), old(committed), step)
      ensures Valid() && mirror.History(id) == LastTurns(committed, maxTurns)
    {
      hide RowsHold, TransactionValid, PendingIn;
      match step
      case Begin(tx, turn, salt) => BeginTurn(tx, turn, salt);
      case Lock(tx) => LockRow(tx);
      case Insert(tx) => InsertRow(tx);
      case Count(tx) => UpdateCount(tx);
      case Prune(tx) => PruneOldest(tx);
      case Commit(tx) =>
        if tx in transactions && transactions[tx].phase == Ready {
          TrimmingComposes(committed, transactions[tx].turn, maxTurns);
          mirror.AddTurn(id, transactions[tx].turn);
        }
        CommitTurn(tx);
      case Abort(tx) => AbortTurn(tx);
      case EnsureExists => EnsureConversation();
      case SoftDelete => MarkDeleted();
      case Clear =>
        var cleared := ClearConversation();
        if cleared {
          mirror.Clear(id);
        }
    }

    /**
     * Any run: any number of add_turn transactions, their statements interleaved in any order with each
     * other and with creation, soft deletion and clearing. It follows the protocol step by step; at its
     * end, so at every point of it, the stored history is the in-memory store's, and both hold the
     * newest of the turns committed so far, in commit order.
     */
    method Run(steps: seq<Step>, mirror: InMemoryConversationStore, id: ConversationId) returns (history: seq<Turn>)
      requires Valid() && mirror.maxTurns == maxTurns && mirror.History(id) == LastTurns(committed, maxTurns)
      modifies this, mirror
      ensures Valid() && Now() == After(old(Now()), steps, key, maxTurns)
      ensures IsLive() ==>
        history == mirror.History(id)
             == LastTurns(CommittedBy(old(Now()), old(committed), steps, key, maxTurns), maxTurns)
      ensures !IsLive() ==> history == []
    {
      for n := 0 to |steps|
        invariant Valid() && mirror.History(id) == LastTurns(committed, maxTurns)
        invariant Now() == After(old(Now()), steps[..n], key, maxTurns)
        invariant committed == CommittedBy(old(Now()), old(committed), steps[..n], key, maxTurns)
      {
        assert steps[..n + 1][..n] == steps[..n];
        Take(steps[n], mirror, id);
      }
      assert steps[..|steps|] == steps;
      history := GetHistory();
    }
  }

  /** A new conversation and some undisturbed turns: the history is the newest of them, at most maxTurns. */
  method Converse(key: string, maxTurns: nat, turns: seq<Turn>, salts: seq<nat>) returns (history: seq<Turn>)
    requires key != "" && maxTurns >= 1 && |salts| == |turns|
    ensures history == if |turns| <= maxTurns then turns else turns[|turns| - maxTurns..]
  {
    var store := new PersistentConversationStore(key, maxTurns);
    store.EnsureConversation();
    for n := 0 to |turns|
      invariant fresh(store) && store.Valid() && store.IsLive() && store.holder == None && store.transactions == map[]
      invariant store.committed == turns[..n]
    {
      store.AddTurn(0, turns[n], salts[n]);
    }
    assert turns[..|turns|] == turns;
    history := store.GetHistory();
  }
}
