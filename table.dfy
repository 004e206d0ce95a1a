/**
 * The client table: client id -> the latest response for that client,
 * with a one-slot undo buffer per client. The backing cache never expires
 * entries, so it is a plain map. A stored value of `None` is the nil value
 * that Undo writes when nothing was saved.
 */
module Table {
  import opened Messages

  type Slot = Option<Response>

  /** The abstract state of a client table. */
  datatype TableState = TableState(entries: map<int, Slot>, lastRecords: map<int, Slot>)

  /** Every saved previous value belongs to a key that is present (keys are never removed). */
  ghost predicate Consistent(s: TableState)
  {
    s.lastRecords.Keys <= s.entries.Keys
  }

  function EmptyTable(): TableState
  {
    TableState(map[], map[])
  }

  /** Set: save the current value of `k` when `k` is present, then store `x`. */
  function TableSet(s: TableState, k: int, x: Response): TableState
  {
    TableState(
      s.entries[k := Some(x)],
      if k in s.entries then s.lastRecords[k := s.entries[k]] else s.lastRecords)
  }

  /** Undo: restore the saved value of `k`, or nil when nothing was saved. */
  function TableUndo(s: TableState, k: int): TableState
  {
    TableState(s.entries[k := if k in s.lastRecords then s.lastRecords[k] else None], s.lastRecords)
  }

  /** Get: the stored value and whether the key is present. */
  function TableGet(s: TableState, k: int): (Slot, bool)
  {
    if k in s.entries then (s.entries[k], true) else (None, false)
  }

  lemma SetKeepsConsistent(s: TableState, k: int, x: Response)
    requires Consistent(s)
    ensures Consistent(TableSet(s, k, x))
  {
  }

  lemma UndoKeepsConsistent(s: TableState, k: int)
    requires Consistent(s)
    ensures Consistent(TableUndo(s, k))
  {
  }

  /** After Set(k, x), k reads back x and every other key reads as before. */
  lemma SetThenGet(s: TableState, k: int, x: Response, j: int)
    ensures TableGet(TableSet(s, k, x), k) == (Some(x), true)
    ensures j != k ==> TableGet(TableSet(s, k, x), j) == TableGet(s, j)
  {
  }

  /** Set copies the old value into the undo slot only when the key was present. */
  lemma SetSavesPrevious(s: TableState, k: int, x: Response)
    ensures k in s.entries ==> TableSet(s, k, x).lastRecords == s.lastRecords[k := s.entries[k]]
    ensures k !in s.entries ==> TableSet(s, k, x).lastRecords == s.lastRecords
  {
  }

  /** Undo never touches the undo slots. */
  lemma UndoKeepsLastRecords(s: TableState, k: int)
    ensures TableUndo(s, k).lastRecords == s.lastRecords
  {
  }

  /** Set followed by Undo gives back the value the key held before. */
  lemma SetUndoRestores(s: TableState, k: int, x: Response, j: int)
    requires k in s.entries
    ensures TableGet(TableUndo(TableSet(s, k, x), k), k) == TableGet(s, k)
    ensures TableGet(TableUndo(TableSet(s, k, x), k), j) == TableGet(s, j)
  {
  }

  /** Undo with nothing saved leaves the key present with a nil value, not absent. */
  lemma SetUndoOnAbsentLeavesNil(s: TableState, k: int, x: Response)
    requires Consistent(s) && k !in s.entries
    ensures TableGet(TableUndo(TableSet(s, k, x), k), k) == (None, true)
    ensures TableGet(s, k) == (None, false)
  {
  }

  /** Undo is one level deep: after Set(a), Set(b), Undo the value is a; undoing again changes nothing. */
  lemma UndoIsOneLevel(s: TableState, k: int, a: Response, b: Response)
    ensures var t := TableUndo(TableSet(TableSet(s, k, a), k, b), k);
      TableGet(t, k) == (Some(a), true) && TableUndo(t, k) == t
  {
  }

  class ClientTable {
    var entries: map<int, Slot>
    var lastRecords: map<int, Slot>

    ghost function State(): TableState
      reads this
    {
      TableState(entries, lastRecords)
    }

    ghost predicate Valid()
      reads this
    {
      Consistent(State())
    }

    constructor New()
      ensures State() == EmptyTable() && Valid()
    {
      entries := map[];
      lastRecords := map[];
    }

    method Set(k: int, x: Response)
      requires Valid()
      modifies this
      ensures State() == TableSet(old(State()), k, x) && Valid()
    {
      var res, ok := Get(k);
      if ok {
        lastRecords := lastRecords[k := res];
      }
      entries := entries[k := Some(x)];
    }

    method Undo(k: int)
      requires Valid()
      modifies this
      ensures State() == TableUndo(old(State()), k) && Valid()
    {
      var saved := if k in lastRecords then lastRecords[k] else None;
      entries := entries[k := saved];
    }

    method Get(k: int) returns (x: Slot, ok: bool)
      ensures (x, ok) == TableGet(State(), k)
      ensures ok <==> k in entries
      ensures ok ==> x == entries[k]
    {
      if k in entries {
        x, ok := entries[k], true;
      } else {
        x, ok := None, false;
      }
    }
  }
}
