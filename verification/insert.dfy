/** The insert worker: streams queued blocks through one long insert by swapping the columns of
    the current block into the placeholder the client reads from.

    The client calls OnInput as often as it likes and gives up whenever it likes, with or
    without an error; cancellation, timeouts and the end of the queue come at any point.  All of
    this is given: what each client does, and what is available when it asks. */
module InsertWorkers {

  /** A column, by identity. */
  type Column = nat

  /** A block: its columns, and the input that names them to the client.  The input is the very
      slice every caller gets, so whoever swaps its elements changes the block. */
  class Block {
    const columns: seq<Column>
    const input: array<Column>

    /** The block has its own columns. */
    ghost predicate Whole()
      reads input
    {
      input[..] == columns
    }

    constructor (columns: seq<Column>)
      ensures this.columns == columns && fresh(input) && Whole()
    {
      this.columns := columns;
      input := new Column[|columns|](i requires 0 <= i < |columns| => columns[i]);
    }
  }

  /** The first column of a block; what it holds tells how many rows the block has. */
  ghost function Head(b: Block): Column {
    if b.columns == [] then 0 else b.columns[0]
  }

  /** What the queue delivers: a block, filled with some rows.  The same block can come again
      once it has been given back. */
  datatype Delivery = Delivery(block: Block, rows: nat)

  /** What was given back to the pool: a block, and the columns it had at that moment. */
  datatype Handover = Handover(block: Block, columns: seq<Column>)

  /** The first n deliveries given back as they should be, in order. */
  ghost function Returned(incoming: seq<Delivery>, n: nat): (handovers: seq<Handover>)
    requires n <= |incoming|
    ensures |handovers| == n
  {
    seq(n, i requires 0 <= i < n => Handover(incoming[i].block, incoming[i].block.columns))
  }

  datatype Answer = More | EndOfInput

  datatype QueryResult = Done | Canceled | Error

  /** What the client of one query does: how often it asks for rows, whether a block is available by
      then (before the context is cancelled or ten seconds pass), and how the query ends. */
  datatype Client = Client(calls: nat, available: nat -> bool, result: QueryResult)

  datatype Exit = Stopped | Cancelled | Failed | Retired

  /** The rows of the first n deliveries of a batch. */
  function RowSum(batch: seq<Delivery>, n: nat): nat
    requires n <= |batch|
  {
    if n == 0 then 0 else RowSum(batch, n - 1) + batch[n - 1].rows
  }

  /** How many deliveries, from the one at hand on, a client has been given after so many calls: a
      batch goes on while its rows are within the size and there is a next block. */
  function Given(incoming: seq<Delivery>, first: nat, size: nat, available: nat -> bool, calls: nat): (n: nat)
    requires first < |incoming|
    ensures first + n <= |incoming| && n <= calls && (n == 0 <==> calls == 0)
  {
    if calls == 0 then 0
    else GivenNext(incoming, first, size, available(calls - 1), Given(incoming, first, size, available, calls - 1))
  }

  function GivenNext(incoming: seq<Delivery>, first: nat, size: nat, available: bool, n: nat): (next: nat)
    requires first < |incoming| && first + n <= |incoming|
    ensures 0 < next && first + next <= |incoming| && n <= next <= n + 1
  {
    if n > 0 && (RowSum(incoming[first..first + n], n) > size || !available || first + n == |incoming|) then n
    else n + 1
  }

  /** One query: the delivery it starts with, and what its client is given. */
  datatype Served = Served(first: nat, batch: seq<Delivery>)
  {
    /** The query takes the one it starts with even if the client never asks. */
    ghost function End(): nat {
      first + if batch == [] then 1 else |batch|
    }
  }

  /** How far the queries so far have come. */
  ghost function TakenBy(start: nat, log: seq<Served>): nat {
    if log == [] then start else log[|log| - 1].End()
  }

  /** Exchanges the columns of two inputs, element by element. */
  method SwapInput(a: array<Column>, b: array<Column>)
    requires a.Length <= b.Length && a != b
    modifies a, b
    ensures a[..] == old(b[..a.Length])
    ensures b[..] == old(a[..]) + old(b[a.Length..])
  {
    for i := 0 to a.Length
      invariant forall j :: 0 <= j < i ==> a[j] == old(b[j]) && b[j] == old(a[j])
      invariant forall j :: i <= j < a.Length ==> a[j] == old(a[j])
      invariant forall j :: i <= j < b.Length ==> b[j] == old(b[j])
    {
      var tmp := a[i];
      a[i] := b[i];
      b[i] := tmp;
    }
  }

  class Worker {
    const batchSize: nat
    const retirementBatches: nat  // 0 = never retires
    const insertBlock: Block      // the placeholder; the client reads from its input
    var currentBlock: Block?
    var currentInput: array?<Column>
    var rowCount: nat

    const incoming: seq<Delivery>             // everything the queue delivers before it is closed
    ghost const blocks: set<Block>            // these blocks and the placeholder
    ghost const owner: map<array<Column>, Block>  // their inputs, and whose they are
    var received: nat                         // how many deliveries this worker took
    var rows: map<Column, nat>                // what the columns in play hold
    ghost var released: seq<Handover>         // what it gave back to the pool, in order
    ghost var batch: seq<Delivery>            // what it loaded in the current batch

    /** The columns a block's input names: while a block is loaded it has those of the placeholder
        and the placeholder has its; otherwise they have their own. */
    ghost function Expected(b: Block): seq<Column>
      reads this`currentBlock, this`currentInput
    {
      if currentInput == null || currentBlock == null then b.columns
      else if b == insertBlock then currentBlock.columns
      else if b == currentBlock then insertBlock.columns
      else b.columns
    }

    /** A block is separate from all others, and has the columns it should. */
    ghost predicate InPlace(b: Block)
      reads this`currentBlock, this`currentInput, owner.Keys
    {
      && |b.columns| == b.input.Length == |insertBlock.columns| > 0
      && b.input in owner && owner[b.input] == b
      && (b != insertBlock ==> forall c :: c in b.columns ==> c !in insertBlock.columns)
      && b.input[..] == Expected(b)
    }

    /** Every block taken was given back with its own columns, except at most the current one, and
        every block has the columns it should. */
    ghost predicate Valid()
      reads this, owner.Keys
    {
      && received <= |incoming| && insertBlock in blocks
      && (forall i :: 0 <= i < |incoming| ==> incoming[i].block in blocks && incoming[i].block != insertBlock)
      && (forall b {:trigger InPlace(b)} :: b in blocks ==> InPlace(b))
      && (currentBlock == null ==> currentInput == null && released == Returned(incoming, received))
      && (currentBlock != null ==>
            && received > 0 && currentBlock == incoming[received - 1].block
            && (currentInput != null ==> currentInput == currentBlock.input)
            && released == Returned(incoming, received - 1)
            && Head(currentBlock) in rows && rows[Head(currentBlock)] == incoming[received - 1].rows)
    }

    /** Between batches, whatever a block's input names is its own. */
    lemma {:induction false} AtRest()
      requires Valid() && currentBlock == null
      ensures forall b :: b in blocks ==> b.Whole()
    {
      forall b | b in blocks
        ensures b.Whole()
      {
        assert InPlace(b);
      }
    }

    /** A batch takes a block only while it has not gone over the size. */
    ghost predicate WithinBatch()
      reads this
    {
      && rowCount == RowSum(batch, |batch|)
      && (batch != [] ==> RowSum(batch, |batch| - 1) <= batchSize)
    }

    constructor (batchSize: nat, retirementBatches: nat, columns: seq<Column>, incoming: seq<Delivery>)
      requires |columns| > 0
      requires forall i :: 0 <= i < |incoming| ==>
        && incoming[i].block.Whole() && |incoming[i].block.columns| == |columns|
        && forall c :: c in incoming[i].block.columns ==> c !in columns
      requires forall i, j :: 0 <= i < |incoming| && 0 <= j < |incoming| && incoming[i].block != incoming[j].block ==>
        incoming[i].block.input != incoming[j].block.input
      ensures Valid() && fresh(insertBlock) && fresh(insertBlock.input) && insertBlock.columns == columns
      ensures currentBlock == null && received == 0 && released == [] && this.incoming == incoming
      ensures this.batchSize == batchSize && this.retirementBatches == retirementBatches
    {
      this.batchSize, this.retirementBatches, this.incoming := batchSize, retirementBatches, incoming;
      var placeholder := new Block(columns);
      insertBlock := placeholder;
      blocks := (set i | 0 <= i < |incoming| :: incoming[i].block) + {placeholder};
      owner := (map i | 0 <= i < |incoming| :: incoming[i].block.input := incoming[i].block)
        [placeholder.input := placeholder];
      currentBlock, currentInput, rowCount, received := null, null, 0, 0;
      rows, released, batch := map[], [], [];
    }

    /** Takes the next delivery from the queue. */
    method Receive()
      requires Valid() && currentBlock == null && received < |incoming|
      modifies this`received, this`currentBlock, this`rows
      ensures Valid() && received == old(received) + 1 && currentBlock == incoming[old(received)].block
      ensures currentInput == null
    {
      assert InPlace(incoming[received].block);
      currentBlock := incoming[received].block;
      rows := rows[currentBlock.columns[0] := incoming[received].rows];
      received := received + 1;
      forall b | b in blocks
        ensures InPlace(b)
      {
        assert old(InPlace(b));
      }
    }

    /** Empties the placeholder's own columns, wherever they are. */
    method ResetPlaceholder()
      requires Valid()
      modifies this`rows
      ensures Valid()
      ensures forall c :: c in rows && c in insertBlock.columns ==> rows[c] == 0
    {
      if currentBlock != null {
        assert InPlace(currentBlock);
        assert Head(currentBlock) in currentBlock.columns;
      }
      rows := map c | c in rows :: if c in insertBlock.columns then 0 else rows[c];
    }

    /** Loads the current block: its columns go into the placeholder. */
    method Load()
      requires Valid() && currentBlock != null && currentInput == null
      modifies this`currentInput, owner.Keys
      ensures Valid() && currentInput == currentBlock.input
      ensures insertBlock.input[..] == currentBlock.columns
    {
      assert InPlace(currentBlock) && InPlace(insertBlock);
      currentInput := currentBlock.input;
      SwapInput(insertBlock.input, currentInput);
      forall b | b in blocks
        ensures InPlace(b)
      {
        assert old(InPlace(b));
      }
    }

    /** Gives the current block back to the pool, first putting its own columns back if it is
        loaded. */
    method Release()
      requires Valid() && currentBlock != null
      modifies this`currentBlock, this`currentInput, this`released, this`rows, owner.Keys
      ensures Valid() && currentBlock == null && currentInput == null
      ensures released == old(released) + [Handover(old(currentBlock), old(currentBlock).columns)]
      ensures old(currentBlock).Whole() && insertBlock.Whole()
    {
      assert InPlace(currentBlock) && InPlace(insertBlock);
      if currentInput != null {
        ResetPlaceholder();
        SwapInput(currentInput, insertBlock.input);
      }
      forall b | b in blocks
        ensures b.Whole() && old(InPlace(b))
      {
        assert old(InPlace(b));
      }
      assert Returned(incoming, received) ==
        Returned(incoming, received - 1) + [Handover(currentBlock, currentBlock.columns)];
      released := released + [Handover(currentBlock, currentBlock.input[..])];
      currentBlock := null;
      currentInput := null;
      forall b | b in blocks
        ensures InPlace(b)
      {
        assert old(InPlace(b));
      }
    }

    /** The client asks for more rows.  It gets the rows of the block at hand, or of the next one
        to come, unless the batch is over its size, or no block is at hand and none comes. */
    method OnInput(available: bool) returns (answer: Answer)
      requires Valid() && WithinBatch()
      modifies this`currentBlock, this`currentInput, this`rowCount, this`received
      modifies this`rows, this`released, this`batch
      modifies owner.Keys
      ensures Valid() && WithinBatch()
      ensures answer == EndOfInput <==>
        || old(rowCount) > batchSize
        || ((old(currentBlock) == null || old(currentInput) != null) && (!available || old(received) == |incoming|))
      ensures answer == More ==>
        && currentInput != null && batch == old(batch) + [incoming[received - 1]]
        && received == old(received) + if old(currentBlock) != null && old(currentInput) == null then 0 else 1
      ensures answer == EndOfInput ==>
        && currentInput == null && batch == old(batch) && received == old(received)
        && currentBlock == if old(currentInput) == null then old(currentBlock) else null
    {
      ResetPlaceholder();
      if currentInput != null {
        Release();
      }
      if rowCount > batchSize {
        return EndOfInput;
      }
      answer := LoadNext(available);
    }

    /** Loads the block at hand, or the next one to come. */
    method LoadNext(available: bool) returns (answer: Answer)
      requires Valid() && WithinBatch() && currentInput == null && rowCount <= batchSize
      modifies this`currentBlock, this`currentInput, this`rowCount, this`received, this`rows, this`batch
      modifies owner.Keys
      ensures Valid() && WithinBatch()
      ensures answer == EndOfInput <==> old(currentBlock) == null && (!available || old(received) == |incoming|)
      ensures answer == More ==>
        && currentInput != null && batch == old(batch) + [incoming[received - 1]]
        && received == old(received) + if old(currentBlock) != null then 0 else 1
      ensures answer == EndOfInput ==>
        currentInput == null && currentBlock == old(currentBlock) && batch == old(batch) && received == old(received)
    {
      if currentBlock == null {
        if !available || received == |incoming| {
          return EndOfInput;
        }
        Receive();
      }
      Load();
      LoadRows();
      answer := More;
    }

    /** Counts the rows of the block just loaded. */
    method LoadRows()
      requires Valid() && WithinBatch() && currentInput != null && rowCount <= batchSize
      modifies this`rowCount, this`batch
      ensures Valid() && WithinBatch() && batch == old(batch) + [incoming[received - 1]]
    {
      assert InPlace(insertBlock) && InPlace(currentBlock);
      RowSumAppend(batch, incoming[received - 1]);
      rowCount := rowCount + rows[insertBlock.input[0]];
      batch := batch + [incoming[received - 1]];
    }

    /** One insert query, over the block at hand.  The client is given the deliveries from that one
        on, none left out and none twice: exactly as many as it asks for, as are available and as
        the size allows. */
    method Query(client: Client) returns (result: QueryResult)
      requires Valid() && currentBlock != null && currentInput == null && batch == [] && rowCount == 0
      modifies this`currentBlock, this`currentInput, this`rowCount, this`received
      modifies this`rows, this`released, this`batch
      modifies owner.Keys
      ensures Valid() && WithinBatch() && result == client.result
      ensures var query := Served(old(received) - 1, batch);
        IsServed(incoming, batchSize, client, query) && received == query.End()
      ensures batch != [] ==> RowSum(batch, |batch|) <= batchSize + batch[|batch| - 1].rows
    {
      ghost var first := received - 1;
      for made := 0 to client.calls
        invariant Valid() && WithinBatch() && BatchFrom(first)
        invariant |batch| == Given(incoming, first, batchSize, client.available, made)
      {
        Ask(first, client.available(made));
      }
      result := client.result;
    }

    /** The client has been given the deliveries from some first one on, or has that one to come. */
    ghost predicate BatchFrom(first: nat)
      reads this
    {
      && first < |incoming| && first + |batch| <= |incoming| && batch == incoming[first..first + |batch|]
      && received == first + (if batch == [] then 1 else |batch|)
      && (batch == [] <==> currentBlock != null && currentInput == null)
    }

    /** One call of a query's client. */
    method Ask(ghost first: nat, available: bool)
      requires Valid() && WithinBatch() && BatchFrom(first)
      modifies this`currentBlock, this`currentInput, this`rowCount, this`received
      modifies this`rows, this`released, this`batch
      modifies owner.Keys
      ensures Valid() && WithinBatch() && BatchFrom(first)
      ensures |batch| == GivenNext(incoming, first, batchSize, available, |old(batch)|)
    {
      var answer := OnInput(available);
      if answer == More {
        assert incoming[first..received] == incoming[first..received - 1] + [incoming[received - 1]];
      }
    }

    /** Runs batch after batch.  However it ends, every delivery taken from the queue has been
        given back exactly once, in the order taken and with its own columns, and every block
        and the placeholder have their own columns.  Each query gave its client the deliveries from
        the first not yet taken on; the run ends when it is cancelled, at the end of the queue,
        when a query fails, or when the worker retires. */
    method Run(cancelled: nat -> bool, clients: nat -> Client)
      returns (exit: Exit, batches: nat, ghost log: seq<Served>)
      requires Valid() && currentBlock == null
      modifies this`currentBlock, this`currentInput, this`rowCount, this`received
      modifies this`rows, this`released, this`batch
      modifies owner.Keys
      ensures Valid() && released == Returned(incoming, received)
      ensures forall b :: b in blocks ==> b.Whole()
      ensures |log| == batches + if exit == Failed then 1 else 0
      ensures AllServed(incoming, old(received), batchSize, clients, log)
      ensures received == TakenBy(old(received), log)
      ensures GoesOn(cancelled, clients, batches)
      ensures match exit
        case Stopped => received == |incoming| && !cancelled(batches)
        case Cancelled => cancelled(batches)
        case Failed => !cancelled(batches) && clients(batches).result == Error
        case Retired => batches == retirementBatches
      ensures retirementBatches > 0 ==>
        batches <= retirementBatches && (exit != Retired ==> batches < retirementBatches)
    {
      batches, log := 0, [];
      while true
        invariant Valid() && currentBlock == null
        invariant |log| == batches && received == TakenBy(old(received), log)
        invariant AllServed(incoming, old(received), batchSize, clients, log)
        invariant GoesOn(cancelled, clients, batches)
        invariant retirementBatches > 0 ==> batches < retirementBatches
        decreases |incoming| - received
      {
        if cancelled(batches) {
          exit := Cancelled;
          break;
        }
        if received == |incoming| {
          exit := Stopped;
          break;
        }
        ghost var first := received;
        var result := RunBatch(clients(batches));
        OneMoreServed(incoming, old(received), batchSize, clients, log, Served(first, batch));
        log := log + [Served(first, batch)];
        if result == Error {
          exit := Failed;
          break;
        }
        batches := batches + 1;
        if retirementBatches > 0 && batches >= retirementBatches {
          exit := Retired;
          break;
        }
      }
      AtRest();
    }

    /** One batch, begun with the next delivery of the queue. */
    method RunBatch(client: Client) returns (result: QueryResult)
      requires Valid() && currentBlock == null && received < |incoming|
      modifies this`currentBlock, this`currentInput, this`rowCount, this`received
      modifies this`rows, this`released, this`batch
      modifies owner.Keys
      ensures Valid() && currentBlock == null && result == client.result
      ensures var query := Served(old(received), batch);
        IsServed(incoming, batchSize, client, query) && received == query.End()
    {
      rowCount, batch := 0, [];
      Receive();
      result := Query(client);
      if currentBlock != null {
        Release();
      }
    }
  }

  // What a run gives to its clients

  /** A client is given the deliveries from the first not yet taken on. */
  ghost predicate IsServed(incoming: seq<Delivery>, size: nat, client: Client, query: Served) {
    && query.first < |incoming| && query.first + |query.batch| <= |incoming|
    && |query.batch| == Given(incoming, query.first, size, client.available, client.calls)
    && query.batch == incoming[query.first..query.first + |query.batch|]
  }

  ghost predicate ServedAt(
    incoming: seq<Delivery>, start: nat, size: nat, clients: nat -> Client, log: seq<Served>, i: nat)
    requires i < |log|
  {
    log[i].first == TakenBy(start, log[..i]) && IsServed(incoming, size, clients(i), log[i])
  }

  /** The queries of a run follow on each other, and serve their clients. */
  ghost predicate AllServed(
    incoming: seq<Delivery>, start: nat, size: nat, clients: nat -> Client, log: seq<Served>)
  {
    forall i :: 0 <= i < |log| ==> ServedAt(incoming, start, size, clients, log, i)
  }

  lemma {:induction false} OneMoreServed(
    incoming: seq<Delivery>, start: nat, size: nat, clients: nat -> Client, log: seq<Served>, query: Served)
    requires AllServed(incoming, start, size, clients, log)
    requires query.first == TakenBy(start, log) && IsServed(incoming, size, clients(|log|), query)
    ensures AllServed(incoming, start, size, clients, log + [query])
    ensures TakenBy(start, log + [query]) == query.End()
  {
    var longer := log + [query];
    forall i | 0 <= i < |longer|
      ensures ServedAt(incoming, start, size, clients, longer, i)
    {
      assert longer[..i] == log[..i];
      if i < |log| {
        assert ServedAt(incoming, start, size, clients, log, i);
      } else {
        assert log[..i] == log;
      }
    }
  }

  /** Nothing ends a run before its first so many batches, nor one of these. */
  ghost predicate GoesOn(cancelled: nat -> bool, clients: nat -> Client, batches: nat) {
    forall i: nat :: i < batches ==> !cancelled(i) && clients(i).result != Error
  }

  /** A batch is never over its size before its last block, and it is as long as the client lets it
      be: it ends early only over its size, at the end of the queue, or when nothing came. */
  lemma {:induction false} GivenIsExact(
    incoming: seq<Delivery>, first: nat, size: nat, available: nat -> bool, calls: nat)
    requires first < |incoming|
    ensures var n := Given(incoming, first, size, available, calls);
      && (n > 1 ==> RowSum(incoming[first..first + n - 1], n - 1) <= size)
      && (n < calls ==>
            || RowSum(incoming[first..first + n], n) > size || first + n == |incoming|
            || exists i: nat :: i < calls && !available(i))
  {
    if calls > 0 {
      GivenIsExact(incoming, first, size, available, calls - 1);
    }
  }

  /** What the queries of a run serve is determined by its clients. */
  lemma {:induction false} ServedDetermined(
    incoming: seq<Delivery>, start: nat, size: nat, clients: nat -> Client, a: seq<Served>, b: seq<Served>, n: nat)
    requires AllServed(incoming, start, size, clients, a) && AllServed(incoming, start, size, clients, b)
    requires n <= |a| <= |b|
    ensures a[..n] == b[..n]
  {
    if n > 0 {
      ServedDetermined(incoming, start, size, clients, a, b, n - 1);
      assert ServedAt(incoming, start, size, clients, a, n - 1) && ServedAt(incoming, start, size, clients, b, n - 1);
      assert a[..n] == a[..n - 1] + [a[n - 1]] && b[..n] == b[..n - 1] + [b[n - 1]];
    }
  }

  /** Does a delivery fall to a query? */
  ghost predicate Covers(query: Served, d: nat) {
    query.first <= d < query.End()
  }

  /** Every delivery taken falls to exactly one query; that query's client was given it, unless the
      client never asked, in which case the delivery is the only one of the query and goes back
      unread. */
  lemma {:induction false} EveryDeliveryIsGiven(
    incoming: seq<Delivery>, start: nat, size: nat, clients: nat -> Client, log: seq<Served>, d: nat) returns (q: nat)
    requires AllServed(incoming, start, size, clients, log) && start <= d < TakenBy(start, log)
    ensures q < |log| && d < |incoming| && Covers(log[q], d)
    ensures forall i :: 0 <= i < |log| && Covers(log[i], d) ==> i == q
    ensures if clients(q).calls == 0 then d == log[q].first && log[q].batch == []
      else d - log[q].first < |log[q].batch| && log[q].batch[d - log[q].first] == incoming[d]
  {
    var last := |log| - 1;
    assert ServedAt(incoming, start, size, clients, log, last);
    if log[last].first <= d {
      q := last;
      forall i | 0 <= i < |log| && Covers(log[i], d)
        ensures i == q
      {
        QueriesInOrder(incoming, start, size, clients, log, i, last);
      }
    } else {
      var before := log[..last];
      ServedSoFar(incoming, start, size, clients, log, last);
      q := EveryDeliveryIsGiven(incoming, start, size, clients, before, d);
      forall i | 0 <= i < |log| && Covers(log[i], d)
        ensures i == q
      {
        assert i < last ==> Covers(before[i], d);
      }
    }
  }

  lemma {:induction false} ServedSoFar(
    incoming: seq<Delivery>, start: nat, size: nat, clients: nat -> Client, log: seq<Served>, n: nat)
    requires AllServed(incoming, start, size, clients, log) && n <= |log|
    ensures AllServed(incoming, start, size, clients, log[..n])
  {
    forall i | 0 <= i < n
      ensures ServedAt(incoming, start, size, clients, log[..n], i)
    {
      assert ServedAt(incoming, start, size, clients, log, i);
      assert log[..n][..i] == log[..i];
    }
  }

  lemma {:induction false} QueriesInOrder(
    incoming: seq<Delivery>, start: nat, size: nat, clients: nat -> Client, log: seq<Served>, i: nat, j: nat)
    requires AllServed(incoming, start, size, clients, log) && i <= j < |log|
    ensures i < j ==> log[i].End() <= log[j].first
  {
    if i < j {
      QueriesInOrder(incoming, start, size, clients, log, i, j - 1);
      assert ServedAt(incoming, start, size, clients, log, j);
      assert log[..j][j - 1] == log[j - 1];
    }
  }

  lemma {:induction false} RowSumAppend(batch: seq<Delivery>, d: Delivery)
    ensures RowSum(batch + [d], |batch| + 1) == RowSum(batch, |batch|) + d.rows
    ensures RowSum(batch + [d], |batch|) == RowSum(batch, |batch|)
  {
    SameRowSum(batch, batch + [d], |batch|);
  }

  lemma {:induction false} SameRowSum(a: seq<Delivery>, b: seq<Delivery>, n: nat)
    requires n <= |a| && a <= b
    ensures RowSum(a, n) == RowSum(b, n)
  {
    if n > 0 {
      SameRowSum(a, b, n - 1);
    }
  }
}
