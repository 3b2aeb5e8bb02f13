/** The recently-committed table: commit times and transaction ids in time order. */
module Rct {

  type Id = nat

  datatype Row = Row(ct: nat, id: Id)

  ghost predicate Sorted(rows: seq<Row>) {
    forall i, j | 0 <= i < j < |rows| :: rows[i].ct < rows[j].ct
  }

  /** The ids whose commit time lies in `[lo, hi]`, in time order. */
  function Between(rows: seq<Row>, lo: nat, hi: int): (ids: seq<Id>) {
    if rows == [] then []
    else
      var r := rows[|rows| - 1];
      Between(rows[..|rows| - 1], lo, hi) + if lo <= r.ct <= hi then [r.id] else []
  }

  /** An id is in the answer exactly when one of its commit times is in the interval. */
  lemma {:induction false} BetweenExact(rows: seq<Row>, lo: nat, hi: int, id: Id)
    ensures id in Between(rows, lo, hi) <==> exists i :: 0 <= i < |rows| && lo <= rows[i].ct <= hi && rows[i].id == id
  {
    if rows != [] {
      var n := |rows| - 1;
      BetweenExact(rows[..n], lo, hi, id);
      if id in Between(rows[..n], lo, hi) {
        var i :| 0 <= i < n && lo <= rows[..n][i].ct <= hi && rows[..n][i].id == id;
        assert rows[i].id == id;
      }
      if i :| 0 <= i < n && lo <= rows[i].ct <= hi && rows[i].id == id {
        assert rows[..n][i].id == id;
      }
    }
  }

  lemma {:induction false} NoneBetween(rows: seq<Row>, lo: nat, hi: int)
    requires forall i | 0 <= i < |rows| :: rows[i].ct < lo || hi < rows[i].ct
    ensures Between(rows, lo, hi) == []
  {
    if rows != [] {
      NoneBetween(rows[..|rows| - 1], lo, hi);
    }
  }

  lemma {:induction false} BetweenAppend(a: seq<Row>, b: seq<Row>, lo: nat, hi: int)
    ensures Between(a + b, lo, hi) == Between(a, lo, hi) + Between(b, lo, hi)
  {
    if b == [] {
      assert a + b == a;
    } else {
      var c := b[..|b| - 1];
      assert (a + b)[..|a + b| - 1] == a + c;
      BetweenAppend(a, c, lo, hi);
    }
  }

  /** Rows before the interval do not matter. */
  lemma {:induction false} DropBetween(rows: seq<Row>, k: nat, lo: nat, hi: int)
    requires k <= |rows| && forall i | 0 <= i < k :: rows[i].ct < lo
    ensures Between(rows[k..], lo, hi) == Between(rows, lo, hi)
  {
    NoneBetween(rows[..k], lo, hi);
    BetweenAppend(rows[..k], rows[k..], lo, hi);
    assert rows == rows[..k] + rows[k..];
  }

  /** Rows after the interval do not matter. */
  lemma {:induction false} TakeBetween(rows: seq<Row>, k: nat, lo: nat, hi: int)
    requires k <= |rows| && forall i | k <= i < |rows| :: hi < rows[i].ct
    ensures Between(rows[..k], lo, hi) == Between(rows, lo, hi)
  {
    NoneBetween(rows[k..], lo, hi);
    BetweenAppend(rows[..k], rows[k..], lo, hi);
    assert rows == rows[..k] + rows[k..];
  }

  /** Bounds that select the same rows give the same answer. */
  lemma {:induction false} SameBetween(rows: seq<Row>, lo: nat, hi: int, lo': nat, hi': int)
    requires forall i | 0 <= i < |rows| :: lo <= rows[i].ct <= hi <==> lo' <= rows[i].ct <= hi'
    ensures Between(rows, lo, hi) == Between(rows, lo', hi')
  {
    if rows != [] {
      SameBetween(rows[..|rows| - 1], lo, hi, lo', hi');
    }
  }

  lemma {:induction false} AllBetween(rows: seq<Row>, lo: nat, hi: int)
    requires forall i | 0 <= i < |rows| :: lo <= rows[i].ct <= hi
    ensures |Between(rows, lo, hi)| == |rows| && forall i | 0 <= i < |rows| :: Between(rows, lo, hi)[i] == rows[i].id
  {
    if rows != [] {
      AllBetween(rows[..|rows| - 1], lo, hi);
    }
  }

  /** In sorted rows the answer has one id for each row of the interval, in their order. */
  lemma {:induction false} BetweenRows(rows: seq<Row>, lo: nat, hi: int, from: nat, to: nat)
    requires from <= to <= |rows| && (forall i | from <= i < to :: lo <= rows[i].ct <= hi)
    requires (forall i | 0 <= i < from :: rows[i].ct < lo) && forall i | to <= i < |rows| :: hi < rows[i].ct
    ensures |Between(rows, lo, hi)| == to - from
    ensures forall i | 0 <= i < to - from :: Between(rows, lo, hi)[i] == rows[from + i].id
  {
    TakeBetween(rows, to, lo, hi);
    DropBetween(rows[..to], from, lo, hi);
    AllBetween(rows[..to][from..], lo, hi);
  }

  /** The rows from place `from` up to `to` are those of the interval, and `ids` lists them. */
  ghost predicate Listed(rows: seq<Row>, lo: nat, hi: int, from: nat, to: nat, ids: seq<Id>)
    requires from <= to <= |rows|
  {
    && (forall i | 0 <= i < |rows| :: from <= i < to <==> lo <= rows[i].ct <= hi)
    && |ids| == to - from && forall i | 0 <= i < |ids| :: ids[i] == rows[from + i].id
  }

  class RCTable {
    var rows: seq<Row>

    constructor ()
      ensures rows == []
    {
      rows := [];
    }

    /** First row with a commit time of at least `x`. */
    method LowerBound(x: nat) returns (i: nat)
      requires Sorted(rows)
      ensures i <= |rows|
      ensures forall j | 0 <= j < i :: rows[j].ct < x
      ensures forall j | i <= j < |rows| :: rows[j].ct >= x
    {
      i := 0;
      while i < |rows| && rows[i].ct < x
        invariant i <= |rows| && forall j | 0 <= j < i :: rows[j].ct < x
      {
        i := i + 1;
      }
    }

    /** insert_trx: a commit time already present keeps its row. */
    method InsertTrx(ct: nat, id: Id)
      requires Sorted(rows)
      modifies this
      ensures Sorted(rows)
      ensures (exists i :: 0 <= i < |old(rows)| && old(rows)[i].ct == ct) ==> rows == old(rows)
      ensures (forall i | 0 <= i < |old(rows)| :: old(rows)[i].ct < ct) ==> rows == old(rows) + [Row(ct, id)]
      ensures (forall i | 0 <= i < |old(rows)| :: old(rows)[i].ct != ct) ==> multiset(rows) == multiset(old(rows)) + multiset{Row(ct, id)}
    {
      var i := LowerBound(ct);
      if i == |rows| || rows[i].ct != ct {
        assert rows == rows[..i] + rows[i..];
        rows := rows[..i] + [Row(ct, id)] + rows[i..];
      }
    }

    /** query_trx: the ids committed in `[bt, ct]`, nothing for an empty or one-point interval. */
    method QueryTrx(bt: nat, ct: int) returns (ids: seq<Id>)
      requires Sorted(rows)
      ensures ids == if ct <= bt then [] else Between(rows, bt, ct)
      ensures bt < ct ==> exists from, to | 0 <= from <= to <= |rows| :: Listed(rows, bt, ct, from, to, ids)
    {
      if ct <= bt {
        return [];
      }
      var lower := LowerBound(bt);
      var upper := LowerBound(ct + 1);
      ids := [];
      NoneBetween(rows[..lower], bt, ct);
      var i := lower;
      while i != upper
        invariant lower <= i <= upper && ids == Between(rows[..i], bt, ct)
      {
        assert rows[..i + 1][..i] == rows[..i];
        ids := ids + [rows[i].id];
        i := i + 1;
      }
      TakeBetween(rows, upper, bt, ct);
      BetweenRows(rows, bt, ct, lower, upper);
      assert Listed(rows, bt, ct, lower, upper, ids);
    }

    /** erase_trxs: exactly the rows before `minBt` go, so no query from
        `minBt` on can tell the difference. */
    method EraseTrxs(minBt: nat) returns (ghost k: nat)
      requires Sorted(rows)
      modifies this
      ensures Sorted(rows)
      ensures k <= |old(rows)| && rows == old(rows)[k..] && (forall i | 0 <= i < k :: old(rows)[i].ct < minBt)
      ensures forall i | 0 <= i < |rows| :: rows[i].ct >= minBt
      ensures forall lo: nat, hi :: lo >= minBt ==> Between(rows, lo, hi) == Between(old(rows), lo, hi)
    {
      if minBt == 0 {
        assert rows == rows[0..];
        return 0;
      }
      var upper := LowerBound(minBt);
      ghost var was := rows;
      rows := rows[upper..];
      k := upper;
      forall lo: nat, hi | lo >= minBt ensures Between(rows, lo, hi) == Between(was, lo, hi) {
        DropBetween(was, upper, lo, hi);
      }
    }
  }
}
