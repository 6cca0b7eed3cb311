/** The stock table and the movement ledger as values, and the facts that tie
    them together: every stock quantity is what the ledger says it is. */
module Ledger {
  import opened Entities

  type StockTable = map<Pair, nat>

  /** The quantity on hand for a pair; a pair without a row holds nothing. */
  function Qty(stock: StockTable, k: Pair): nat
  {
    if k in stock then stock[k] else 0
  }

  /** Receiving `q` units: the row is created at 0 when it is missing, then
      increased by `q`. */
  function Deposit(stock: StockTable, k: Pair, q: nat): (r: StockTable)
    ensures r.Keys == stock.Keys + {k}
    ensures forall k' :: Qty(r, k') == Qty(stock, k') + (if k' == k then q else 0)
  {
    stock[k := Qty(stock, k) + q]
  }

  /** Issuing `q` units from an existing row that holds at least `q`. */
  function Withdraw(stock: StockTable, k: Pair, q: nat): (r: StockTable)
    requires k in stock && q <= stock[k]
    ensures r.Keys == stock.Keys
    ensures forall k' :: Qty(r, k') == Qty(stock, k') - (if k' == k then q else 0)
  {
    stock[k := stock[k] - q]
  }

  /** Sum of the quantities of the movements of one type for one pair. */
  function SumOf(ms: seq<Movement>, kind: MovementType, k: Pair): int
  {
    if ms == [] then 0
    else (if ms[0].kind == kind && ms[0].Key() == k then ms[0].quantity else 0)
         + SumOf(ms[1..], kind, k)
  }

  /** The stock the ledger accounts for: IN quantities minus OUT quantities. */
  function Net(ms: seq<Movement>, k: Pair): int
  {
    SumOf(ms, In, k) - SumOf(ms, Out, k)
  }

  /** The change one movement makes to the net of a pair. */
  function Effect(m: Movement, k: Pair): int
  {
    if m.Key() != k then 0 else if m.kind == In then m.quantity else -m.quantity
  }

  /** The audit invariant: every row (and every absent row, as 0) equals the
      net of the ledger for its pair. */
  ghost predicate Balanced(stock: StockTable, ms: seq<Movement>)
  {
    forall k :: Qty(stock, k) == Net(ms, k)
  }

  /** Movement ids are generated 1, 2, 3, ... in insertion order, and every
      recorded quantity is positive. */
  ghost predicate WellFormed(ms: seq<Movement>)
  {
    forall i :: 0 <= i < |ms| ==> ms[i].id == i + 1 && ms[i].quantity > 0
  }

  lemma {:induction false} SumOfAppend(ms: seq<Movement>, m: Movement, kind: MovementType, k: Pair)
    ensures SumOf(ms + [m], kind, k)
            == SumOf(ms, kind, k) + (if m.kind == kind && m.Key() == k then m.quantity else 0)
  {
    if ms != [] {
      assert (ms + [m])[1..] == ms[1..] + [m];
      SumOfAppend(ms[1..], m, kind, k);
    } else {
      assert ms + [m] == [m];
      assert [m][1..] == [];
    }
  }

  /** Appending a movement moves the net of its own pair by its signed
      quantity and leaves every other pair alone. */
  lemma NetAppend(ms: seq<Movement>, m: Movement, k: Pair)
    ensures Net(ms + [m], k) == Net(ms, k) + Effect(m, k)
  {
    SumOfAppend(ms, m, In, k);
    SumOfAppend(ms, m, Out, k);
  }

  /** A receipt that is recorded by one IN movement keeps the books balanced. */
  lemma BalancedAfterDeposit(stock: StockTable, ms: seq<Movement>, m: Movement)
    requires Balanced(stock, ms)
    requires m.kind == In && m.quantity >= 0
    ensures Balanced(Deposit(stock, m.Key(), m.quantity), ms + [m])
  {
    var stock' := Deposit(stock, m.Key(), m.quantity);
    forall k ensures Qty(stock', k) == Net(ms + [m], k) {
      NetAppend(ms, m, k);
    }
  }

  /** An issue that is recorded by one OUT movement keeps the books balanced. */
  lemma BalancedAfterWithdraw(stock: StockTable, ms: seq<Movement>, m: Movement)
    requires Balanced(stock, ms)
    requires m.kind == Out && m.quantity >= 0
    requires m.Key() in stock && m.quantity <= stock[m.Key()]
    ensures Balanced(Withdraw(stock, m.Key(), m.quantity), ms + [m])
  {
    var stock' := Withdraw(stock, m.Key(), m.quantity);
    forall k ensures Qty(stock', k) == Net(ms + [m], k) {
      NetAppend(ms, m, k);
    }
  }

  /** A transfer recorded as OUT at the source followed by IN at the
      destination keeps the books balanced. */
  lemma BalancedAfterTransfer(stock: StockTable, ms: seq<Movement>, out: Movement, inn: Movement)
    requires Balanced(stock, ms)
    requires out.kind == Out && inn.kind == In && out.quantity == inn.quantity >= 0
    requires out.Key() in stock && out.quantity <= stock[out.Key()]
    ensures Balanced(Deposit(Withdraw(stock, out.Key(), out.quantity), inn.Key(), inn.quantity),
                     ms + [out, inn])
  {
    var mid := Withdraw(stock, out.Key(), out.quantity);
    BalancedAfterWithdraw(stock, ms, out);
    BalancedAfterDeposit(mid, ms + [out], inn);
    assert ms + [out] + [inn] == ms + [out, inn];
  }

  /** Whether a movement passes the listing filters. */
  predicate Matches(m: Movement, warehouseId: Option<int>, productId: Option<int>)
  {
    (Restricts(warehouseId) ==> m.warehouse == warehouseId.value)
    && (Restricts(productId) ==> m.product == productId.value)
  }

  /** The movements that pass the filters, newest (highest id) first. */
  function Select(ms: seq<Movement>, warehouseId: Option<int>, productId: Option<int>): seq<Movement>
  {
    if ms == [] then []
    else
      var last := ms[|ms| - 1];
      (if Matches(last, warehouseId, productId) then [last] else [])
      + Select(ms[..|ms| - 1], warehouseId, productId)
  }

  /** Everything listed is a ledger entry that passes the filters. */
  lemma {:induction false} SelectSound(ms: seq<Movement>, warehouseId: Option<int>, productId: Option<int>)
    ensures forall m :: m in Select(ms, warehouseId, productId) ==> m in ms && Matches(m, warehouseId, productId)
  {
    if ms != [] {
      var older := ms[..|ms| - 1];
      SelectSound(older, warehouseId, productId);
      assert ms == older + [ms[|ms| - 1]];
    }
  }

  /** Every ledger entry that passes the filters is listed. */
  lemma {:induction false} SelectComplete(ms: seq<Movement>, warehouseId: Option<int>, productId: Option<int>)
    ensures forall m :: m in ms && Matches(m, warehouseId, productId) ==> m in Select(ms, warehouseId, productId)
  {
    if ms != [] {
      var older := ms[..|ms| - 1];
      SelectComplete(older, warehouseId, productId);
      assert ms == older + [ms[|ms| - 1]];
    }
  }

  /** Ids strictly decrease along the sequence. */
  predicate NewestFirst(r: seq<Movement>)
  {
    forall i, j :: 0 <= i < j < |r| ==> r[i].id > r[j].id
  }

  /** When ids grow with insertion, the listing is ordered newest first. */
  lemma {:induction false} SelectNewestFirst(ms: seq<Movement>, warehouseId: Option<int>, productId: Option<int>)
    requires forall i, j :: 0 <= i < j < |ms| ==> ms[i].id < ms[j].id
    ensures NewestFirst(Select(ms, warehouseId, productId))
  {
    if ms != [] {
      var last := ms[|ms| - 1];
      var older := ms[..|ms| - 1];
      var rest := Select(older, warehouseId, productId);
      SelectNewestFirst(older, warehouseId, productId);
      SelectSound(older, warehouseId, productId);
      forall m | m in rest ensures m.id < last.id {
        var i :| 0 <= i < |older| && older[i] == m;
        assert ms[i] == m;
      }
      var head := if Matches(last, warehouseId, productId) then [last] else [];
      var r := head + rest;
      assert NewestFirst(rest);
      forall i, j | 0 <= i < j < |r| ensures r[i].id > r[j].id {
        if i < |head| {
          assert r[i] == last && r[j] == rest[j - |head|] && rest[j - |head|] in rest;
        } else {
          assert r[i] == rest[i - |head|] && r[j] == rest[j - |head|];
        }
      }
    }
  }

  /** Pairwise distinct warehouse ids. */
  ghost predicate Distinct(ws: seq<int>)
  {
    forall i, j :: 0 <= i < j < |ws| ==> ws[i] != ws[j]
  }

  /** Total stock of product `p` held in the warehouses `ws`. */
  function TotalOf(stock: StockTable, p: int, ws: seq<int>): int
  {
    if ws == [] then 0 else Qty(stock, Pair(ws[0], p)) + TotalOf(stock, p, ws[1..])
  }

  /** A transfer of `q` units of `p` between two different warehouses changes
      the product's total over any list of warehouses only by the part of the
      move that crosses the list's boundary; over a list holding both ends (or
      neither) the total is unchanged. */
  lemma {:induction false} TransferKeepsTotal(stock: StockTable, from: int, to: int, p: int, q: nat, ws: seq<int>)
    requires from != to
    requires Pair(from, p) in stock && q <= stock[Pair(from, p)]
    requires Distinct(ws)
    ensures TotalOf(Deposit(Withdraw(stock, Pair(from, p), q), Pair(to, p), q), p, ws)
            == TotalOf(stock, p, ws) - (if from in ws then q else 0) + (if to in ws then q else 0)
  {
    if ws != [] {
      var tail := ws[1..];
      assert Distinct(tail) by {
        forall i, j | 0 <= i < j < |tail| ensures tail[i] != tail[j] {
          assert tail[i] == ws[i + 1] && tail[j] == ws[j + 1];
        }
      }
      assert from in ws <==> from == ws[0] || from in tail;
      assert to in ws <==> to == ws[0] || to in tail;
      assert ws[0] !in tail by {
        forall j | 0 <= j < |tail| ensures tail[j] != ws[0] {
          assert tail[j] == ws[j + 1];
        }
      }
      TransferKeepsTotal(stock, from, to, p, q, tail);
    }
  }
}
