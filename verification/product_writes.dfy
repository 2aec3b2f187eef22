/** The write paths of internal/app/storage/sqlitedb/product_storage.go:
    `UpsertOne`, which inserts or updates one product and then removes the
    attribute values its category no longer allows, all in one transaction;
    and `UpdateMany`, which hands one partial UPDATE per product to a batch
    executor. The database is an oracle that may fail at any step. */
module ProductWrites {
  import opened Common
  import opened Sql
  import opened ProductQueries

  const UpsertOneOp: string := "sqlitedb.Product.UpsertOne"
  const UpdateManyOp: string := "sqlitedb.Product.UpdateMany"

  /** `utils.WrapIfErr`: no error stays no error; an error is tagged with
      the operation name. */
  function WrapIfErr(op: string, cause: Option<string>): (e: Option<Error>)
    ensures e.None? <==> cause.None?
    ensures e.Some? ==> e.value == Error(op, cause.value)
  {
    match cause
    case None => None
    case Some(c) => Some(Error(op, c))
  }

  /** The transaction as `UpsertOne` sees it: whether `Beginx` fails; what
      executing a statement yields after the statements already run in the
      transaction (the new row id for an INSERT, the affected-row count
      otherwise); and whether `Commit` fails. */
  datatype Tx = Tx(
    beginErr: Option<string>,
    exec: (seq<Stmt>, Stmt) -> Result<int>,
    commitErr: Option<string>)

  /** What a call returns, with the statements it ran and whether the
      transaction was committed (otherwise the deferred rollback undoes it). */
  datatype UpsertRun = UpsertRun(id: int, err: Option<Error>, executed: seq<Stmt>, committed: bool)

  /** The first statement: an INSERT for a new product (`ID == 0`), the
      partial UPDATE otherwise. */
  function WriteStmt(dto: Product, slugify: Product -> string): Stmt {
    if dto.id == 0 then InsertStmt(GetQueryInsert(dto, slugify)) else UpdateStmt(GetQueryUpdateByID(dto, slugify))
  }

  function CleanUpStmt(id: int): Stmt {
    DeleteStmt(GetQueryDeleteInvalidAttributes(id))
  }

  function UpsertOne(tx: Tx, dto: Product, slugify: Product -> string): UpsertRun {
    if tx.beginErr.Some? then UpsertRun(0, WrapIfErr(UpsertOneOp, tx.beginErr), [], false)
    else
      var write := WriteStmt(dto, slugify);
      match tx.exec([], write)
      case Err(e) => UpsertRun(0, Some(Error(UpsertOneOp, e)), [write], false)
      case Ok(n) =>
        var id := if dto.id == 0 then n else dto.id;
        var cleanUp := CleanUpStmt(id);
        match tx.exec([write], cleanUp)
        case Err(e) => UpsertRun(0, Some(Error(UpsertOneOp, e)), [write, cleanUp], false)
        case Ok(_) => UpsertRun(id, WrapIfErr(UpsertOneOp, tx.commitErr), [write, cleanUp], tx.commitErr.None?)
  }

  /** The id a successful write settles on: the new row id for an INSERT,
      the DTO's own id for an UPDATE (whatever row count it reports). */
  function ChosenId(tx: Tx, dto: Product, slugify: Product -> string): int
    requires tx.exec([], WriteStmt(dto, slugify)).Ok?
  {
    if dto.id == 0 then tx.exec([], WriteStmt(dto, slugify)).value else dto.id
  }

  /** `UpsertOne` commits iff it reports no error, and every error it
      reports names the operation. */
  lemma {:induction false} UpsertOneCommitsIffNoError(tx: Tx, dto: Product, slugify: Product -> string)
    ensures var run := UpsertOne(tx, dto, slugify);
            && (run.err.None? <==> run.committed)
            && (run.err.Some? ==> run.err.value.op == UpsertOneOp)
  {
  }

  /** `UpsertOne` runs nothing if BEGIN fails; otherwise its first
      statement is an INSERT iff the DTO has no id, and an UPDATE of row
      `dto.ID` otherwise. */
  lemma {:induction false} UpsertOneChoosesStatement(tx: Tx, dto: Product, slugify: Product -> string)
    ensures var run := UpsertOne(tx, dto, slugify);
            && (tx.beginErr.Some? ==> run == UpsertRun(0, Some(Error(UpsertOneOp, tx.beginErr.value)), [], false))
            && (tx.beginErr.None? ==> |run.executed| > 0 && run.executed[0] == WriteStmt(dto, slugify))
            && (run.executed != [] ==> (run.executed[0].InsertStmt? <==> dto.id == 0))
            && (run.executed != [] && dto.id != 0 ==> run.executed[0].upd.where == Compare(Eq, "id", VInt(dto.id)))
  {
  }

  /** Once the write succeeds the clean-up runs for the chosen id, on both
      paths; an UPDATE that touches no row still counts as success. */
  lemma {:induction false} UpsertOneCleansChosenId(tx: Tx, dto: Product, slugify: Product -> string)
    requires tx.beginErr.None? && tx.exec([], WriteStmt(dto, slugify)).Ok?
    ensures var run := UpsertOne(tx, dto, slugify);
            && run.executed == [WriteStmt(dto, slugify), CleanUpStmt(ChosenId(tx, dto, slugify))]
            && (dto.id != 0 ==> ChosenId(tx, dto, slugify) == dto.id)
            && (tx.exec([WriteStmt(dto, slugify)], CleanUpStmt(ChosenId(tx, dto, slugify))).Ok? ==>
                  run.id == ChosenId(tx, dto, slugify) && (run.committed <==> tx.commitErr.None?))
  {
  }

  /** A failure at BEGIN or at either statement returns id 0; a failure at
      COMMIT returns the chosen id together with the error. */
  lemma {:induction false} UpsertOneFailures(tx: Tx, dto: Product, slugify: Product -> string)
    ensures var run := UpsertOne(tx, dto, slugify);
            var write := WriteStmt(dto, slugify);
            && (tx.beginErr.Some? ==> run.id == 0 && run.err.Some?)
            && (tx.beginErr.None? && tx.exec([], write).Err? ==>
                  run.id == 0 && run.err == Some(Error(UpsertOneOp, tx.exec([], write).cause)))
            && (tx.beginErr.None? && tx.exec([], write).Ok? &&
                tx.exec([write], CleanUpStmt(ChosenId(tx, dto, slugify))).Err? ==>
                  run.id == 0 && run.err.Some? && !run.committed)
            && (tx.beginErr.None? && tx.exec([], write).Ok? &&
                tx.exec([write], CleanUpStmt(ChosenId(tx, dto, slugify))).Ok? && tx.commitErr.Some? ==>
                  run.id == ChosenId(tx, dto, slugify) && run.err == Some(Error(UpsertOneOp, tx.commitErr.value)))
  {
  }

  /** The batch `UpdateMany` hands to `runExecAffectedRangeNewTx`. */
  function UpdateBatch(dtos: seq<Product>, slugify: Product -> string): seq<Update> {
    seq(|dtos|, i requires 0 <= i < |dtos| => GetQueryUpdateByID(dtos[i], slugify))
  }

  datatype Outcome = Outcome(affected: int, err: Option<Error>)

  /** `runExecAffected` over the batch is the oracle `execBatch`. */
  function UpdateMany(execBatch: seq<Update> -> Result<int>, dtos: seq<Product>, slugify: Product -> string): Outcome {
    match execBatch(UpdateBatch(dtos, slugify))
    case Err(e) => Outcome(0, Some(Error(UpdateManyOp, e)))
    case Ok(n) => Outcome(n, None)
  }

  /** One UPDATE per DTO, in input order, each keyed by that DTO's id; the
      executor's count is returned on success and 0 with a wrapped error on
      failure. */
  lemma {:induction false} UpdateManyContract(execBatch: seq<Update> -> Result<int>, dtos: seq<Product>, slugify: Product -> string)
    ensures var batch := UpdateBatch(dtos, slugify);
            var out := UpdateMany(execBatch, dtos, slugify);
            && |batch| == |dtos|
            && (forall i :: 0 <= i < |dtos| ==>
                  batch[i].table == "product" && batch[i].where == Compare(Eq, "id", VInt(dtos[i].id)))
            && (out.err.None? <==> execBatch(batch).Ok?)
            && (execBatch(batch).Ok? ==> out.affected == execBatch(batch).value)
            && (out.err.Some? ==> out.affected == 0 && out.err.value == Error(UpdateManyOp, execBatch(batch).cause))
  {
  }
}
