/** An abstract form of the statements the storage layer hands to the SQL
    builder. Clauses keep SQL text (identifiers, column expressions) apart
    from bound arguments, so contracts can say which clauses appear and what
    is bound, without rendering text. */
module Sql {

  /** A client-supplied value as it arrives from a decoded request body. */
  datatype Value =
    | VStr(s: string)
    | VInt(i: int)
    | VBool(b: bool)
    | VNull
    | VList(items: seq<Value>)

  datatype CmpOp = Eq | Gt | Lt | Ge | Le

  /** A boolean SQL expression. In every atom `subject` is SQL text; the
      remaining fields are bound arguments, except in `Raw`, which is fixed
      text written by the storage code itself. */
  datatype Cond =
    | Compare(op: CmpOp, subject: string, arg: Value)
    | Like(subject: string, pattern: string)
    | Between(subject: string, low: Value, high: Value)
    | In(subject: string, ids: set<int>)
    | IsNull(subject: string)
    | NotIn(subject: string, query: SubSelect)
    | Or(items: seq<Cond>)
    | And(items: seq<Cond>)
    | Raw(text: string)

  /** A one-column sub-SELECT used as the right-hand side of `NOT IN`. */
  datatype SubSelect = SubSelect(column: string, from: string, joins: seq<Join>, wheres: seq<Cond>)

  datatype JoinKind = InnerJoin | LeftJoin

  datatype Join = Join(kind: JoinKind, table: string, on: Cond)

  /** A SELECT beyond its fixed base: the extra selected columns, and the
      joins, WHERE clauses (AND-ed) and ORDER BY terms added to the base. */
  datatype Select = Select(extraColumns: seq<string>, joins: seq<Join>, wheres: seq<Cond>, orderBy: seq<string>)

  /** One item of an UPDATE's SET list. */
  datatype Assignment =
    | SetNow(column: string)              // column = unixepoch()
    | SetValue(column: string, value: Value)

  datatype Update = Update(table: string, where: Cond, sets: seq<Assignment>)

  datatype Insert = Insert(table: string, columns: seq<string>, values: seq<Value>)

  datatype Delete = Delete(table: string, wheres: seq<Cond>)

  datatype Stmt = InsertStmt(ins: Insert) | UpdateStmt(upd: Update) | DeleteStmt(del: Delete)

  /** Truth of a condition, given the truth of its atoms: OR and AND are
      read structurally, every other clause is decided by `atom`. */
  predicate Holds(c: Cond, atom: Cond -> bool)
    decreases c
  {
    match c
    case Or(items) => exists x :: x in items && Holds(x, atom)
    case And(items) => forall x :: x in items ==> Holds(x, atom)
    case _ => atom(c)
  }

  /** A list of WHERE clauses holds when every clause holds. */
  predicate AllHold(cs: seq<Cond>, atom: Cond -> bool) {
    forall i :: 0 <= i < |cs| ==> Holds(cs[i], atom)
  }

  function Columns(sets: seq<Assignment>): seq<string> {
    seq(|sets|, i requires 0 <= i < |sets| => sets[i].column)
  }
}
