/** The unit of work: joining the ambient transaction, or opening one. Bodies are programs over a store
    of rows, with reads, throws, catches and nested units of work. */
module UnitOfWork {
  import opened Common

  type Rows = map<nat, int>

  datatype Program =
    | Skip
    | Put(key: nat, value: int)
    | IfHolds(key: nat, value: int, yes: Program, no: Program) // reads through the current client
    | Throw
    | Sequence(first: Program, second: Program)
    | Catch(body: Program, handler: Program)
    | Execute(body: Program)

  // The committed rows, and the ambient transaction's view of them, if one is open.
  datatype State = State(committed: Rows, tx: Option<Rows>) {
    function Client(): Rows {
      if tx.Some? then tx.value else committed
    }

    function Write(key: nat, value: int): State {
      if tx.Some? then this.(tx := Some(tx.value[key := value])) else this.(committed := committed[key := value])
    }
  }

  /** The state a program leaves, and whether it came to its end without a throw. */
  function Run(p: Program, s: State): (State, bool)
    decreases p
  {
    match p
    case Skip => (s, true)
    case Put(k, v) => (s.Write(k, v), true)
    case IfHolds(k, v, yes, no) => if k in s.Client() && s.Client()[k] == v then Run(yes, s) else Run(no, s)
    case Throw => (s, false)
    case Sequence(a, b) =>
      var (mid, ok) := Run(a, s);
      if ok then Run(b, mid) else (mid, false)
    case Catch(a, b) =>
      var (mid, ok) := Run(a, s);
      if ok then (mid, true) else Run(b, mid)
    case Execute(body) =>
      if s.tx.Some? then Run(body, s)
      else
        var (after, ok) := Run(body, s.(tx := Some(s.committed)));
        (State(if ok && after.tx.Some? then after.tx.value else s.committed, None), ok)
  }

  class TransactionalStore {
    var committed: Rows
    var tx: Option<Rows> // the ambient transaction, kept in async-local storage

    constructor (rows: Rows)
      ensures View() == State(rows, None)
    {
      committed, tx := rows, None;
    }

    function View(): State
      reads this
    {
      State(committed, tx)
    }

    method Perform(p: Program) returns (ok: bool)
      modifies this
      ensures (View(), ok) == Run(p, old(View()))
      decreases p
    {
      match p
      case Skip => ok := true;
      case Put(k, v) =>
        if tx.Some? {
          tx := Some(tx.value[k := v]);
        } else {
          committed := committed[k := v];
        }
        ok := true;
      case IfHolds(k, v, yes, no) =>
        var client := if tx.Some? then tx.value else committed;
        if k in client && client[k] == v {
          ok := Perform(yes);
        } else {
          ok := Perform(no);
        }
      case Throw => ok := false;
      case Sequence(a, b) =>
        ok := Perform(a);
        if ok {
          ok := Perform(b);
        }
      case Catch(a, b) =>
        ok := Perform(a);
        if !ok {
          ok := Perform(b);
        }
      case Execute(body) =>
        if tx.Some? {
          ok := Perform(body); // joins the open transaction
        } else {
          TransactionsStayOpen(body, State(committed, Some(committed)));
          tx := Some(committed);
          ok := Perform(body);
          if ok {
            committed := tx.value;
          }
          tx := None;
        }
    }
  }

  /** Inside a transaction nothing is committed, and the transaction is still the ambient one after. */
  lemma {:induction false} TransactionsStayOpen(p: Program, s: State)
    requires s.tx.Some?
    ensures Run(p, s).0.committed == s.committed && Run(p, s).0.tx.Some?
    decreases p
  {
    match p
    case IfHolds(_, _, yes, no) =>
      TransactionsStayOpen(yes, s);
      TransactionsStayOpen(no, s);
    case Sequence(a, b) =>
      TransactionsStayOpen(a, s);
      TransactionsStayOpen(b, Run(a, s).0);
    case Catch(a, b) =>
      TransactionsStayOpen(a, s);
      TransactionsStayOpen(b, Run(a, s).0);
    case Execute(body) => TransactionsStayOpen(body, s);
    case _ =>
  }

  /** The program without its units of work. */
  function Flatten(p: Program): Program {
    match p
    case IfHolds(k, v, yes, no) => IfHolds(k, v, Flatten(yes), Flatten(no))
    case Sequence(a, b) => Sequence(Flatten(a), Flatten(b))
    case Catch(a, b) => Catch(Flatten(a), Flatten(b))
    case Execute(body) => Flatten(body)
    case _ => p
  }

  /** Inside a transaction, nested units of work of any depth mean what their flattened bodies mean. */
  lemma {:induction false} NestingIsFlattening(p: Program, s: State)
    requires s.tx.Some?
    ensures Run(p, s) == Run(Flatten(p), s)
    decreases p
  {
    match p
    case IfHolds(_, _, yes, no) =>
      NestingIsFlattening(yes, s);
      NestingIsFlattening(no, s);
    case Sequence(a, b) =>
      NestingIsFlattening(a, s);
      TransactionsStayOpen(a, s);
      NestingIsFlattening(b, Run(a, s).0);
    case Catch(a, b) =>
      NestingIsFlattening(a, s);
      TransactionsStayOpen(a, s);
      NestingIsFlattening(b, Run(a, s).0);
    case Execute(body) => NestingIsFlattening(body, s);
    case _ =>
  }

  // A flat program does to the open transaction what it would do to the rows themselves.
  lemma {:induction false} TransactionIsPlainRun(p: Program, rows: Rows, committed: Rows)
    ensures var (inside, ok) := Run(Flatten(p), State(committed, Some(rows)));
      var (plain, ok') := Run(Flatten(p), State(rows, None));
      ok == ok' && plain.tx.None? && inside.tx == Some(plain.committed)
    decreases p
  {
    match p
    case IfHolds(_, _, yes, no) =>
      TransactionIsPlainRun(yes, rows, committed);
      TransactionIsPlainRun(no, rows, committed);
    case Sequence(a, b) =>
      TransactionIsPlainRun(a, rows, committed);
      FlatKeepsCommitted(a, rows, committed);
      TransactionIsPlainRun(b, Run(Flatten(a), State(rows, None)).0.committed, committed);
    case Catch(a, b) =>
      TransactionIsPlainRun(a, rows, committed);
      FlatKeepsCommitted(a, rows, committed);
      TransactionIsPlainRun(b, Run(Flatten(a), State(rows, None)).0.committed, committed);
    case Execute(body) => TransactionIsPlainRun(body, rows, committed);
    case _ =>
  }

  lemma FlatKeepsCommitted(p: Program, rows: Rows, committed: Rows)
    ensures Run(Flatten(p), State(committed, Some(rows))).0.committed == committed
  {
    TransactionsStayOpen(Flatten(p), State(committed, Some(rows)));
  }

  /** An outermost unit of work commits exactly what its flattened body would have written on its own,
      or, if a throw leaves it, nothing at all. */
  lemma {:induction false} AllOrNothing(p: Program, rows: Rows)
    ensures var (plain, ok) := Run(Flatten(p), State(rows, None));
      Run(Execute(p), State(rows, None)) == (State(if ok then plain.committed else rows, None), ok)
  {
    NestingIsFlattening(p, State(rows, Some(rows)));
    TransactionIsPlainRun(p, rows, rows);
  }

  /** In every state, a unit of work that ends with a throw leaves everything as it was if and only if no
      transaction was open, or its flattened body, run on the rows of the open one, changes none. */
  lemma {:induction false} ThrownWorkIsUndoneExactlyWhen(p: Program, s: State)
    requires !Run(Execute(p), s).1
    ensures Run(Execute(p), s).0 == s
      <==> s.tx.None? || Run(Flatten(p), State(s.tx.value, None)).0.committed == s.tx.value
  {
    if s.tx.Some? {
      JoinedWork(p, s.committed, s.tx.value);
    }
  }

  // A unit of work inside an open transaction does to its rows what the flattened body would.
  lemma {:induction false} JoinedWork(p: Program, committed: Rows, rows: Rows)
    ensures var s := State(committed, Some(rows)); var (plain, ok) := Run(Flatten(p), State(rows, None));
      Run(Execute(p), s) == (State(committed, Some(plain.committed)), ok)
  {
    var s := State(committed, Some(rows));
    NestingIsFlattening(p, s);
    FlatKeepsCommitted(p, rows, committed);
    TransactionIsPlainRun(p, rows, committed);
  }

  /** So when the throw is caught, the writes of an outermost unit of work are gone, and those of one
      inside another are committed with it, whatever the handler does next. */
  lemma {:induction false} CaughtInnerWritesAreCommitted(p: Program, handler: Program, rows: Rows)
    requires !Run(Flatten(p), State(rows, None)).1
    ensures var kept := Run(Flatten(p), State(rows, None)).0.committed;
      var (after, ok) := Run(Flatten(handler), State(kept, None));
      && Run(Catch(Execute(p), handler), State(rows, None)) == Run(handler, State(rows, None))
      && Run(Execute(Catch(Execute(p), handler)), State(rows, None))
         == (State(if ok then after.committed else rows, None), ok)
  {
    AllOrNothing(p, rows);
    AllOrNothing(Catch(Execute(p), handler), rows);
    TransactionIsPlainRun(p, rows, rows);
  }
}
