/** The row filter the dashboard runs on the parser's output once the CSV has
    loaded: a row is kept whole, or dropped whole, by one predicate, and the kept
    rows keep their original order. */
module RowValidator {
  import opened JsValues

  /** One entry of the parser's output: a null or undefined entry, or an object
      with the purchase-order columns the dashboard reads. */
  datatype Row =
    | Nothing
    | Record(
        supplierName: Value,
        poDate: Value,
        poNumber: Value,
        poAmount: Value,
        itemDescription: Value)

  /** The filter callback: the row, its supplier name, its date and its amount
      are all truthy, the date is a valid Date and the amount is not NaN. */
  predicate Keep(host: Host, row: Row)
    ensures Keep(host, row) ==>
      && row.Record?
      && (row.poDate.Num? || row.poDate.Str? || row.poDate == Bool(true))
      && (row.poAmount.Num? || row.poAmount.Str?)
      && (row.poAmount.Num? ==> row.poAmount.x != 0.0)
  {
    && row.Record?
    && Truthy(row.poDate)
    && Truthy(row.poAmount)
    && Truthy(row.supplierName)
    && ParseDate(host, row.poDate).Some?
    && ParseAmount(host, row.poAmount).Some?
  }

  /** Every row of `rows` passes the filter: the shape of the dashboard's data. */
  ghost predicate AllKept(host: Host, rows: seq<Row>)
  {
    forall i :: 0 <= i < |rows| ==> Keep(host, rows[i])
  }

  /** `results.data.filter(...)`. */
  function Validate(host: Host, rows: seq<Row>): (kept: seq<Row>)
    ensures |kept| <= |rows|
    ensures AllKept(host, kept)
    ensures forall k :: 0 <= k < |kept| ==> kept[k] in rows
  {
    if rows == [] then []
    else if Keep(host, rows[0]) then [rows[0]] + Validate(host, rows[1..])
    else Validate(host, rows[1..])
  }

  /** Strictly increasing positions. */
  ghost predicate Increasing(idx: seq<int>)
  {
    forall a, b :: 0 <= a < b < |idx| ==> idx[a] < idx[b]
  }

  /** `kept` is `rows` with exactly the failing rows removed: the kept rows are
      the rows at the increasing positions `idx`, taken unchanged, and a
      position is among `idx` exactly when its row passes the filter. */
  ghost predicate IsFilterOf(host: Host, rows: seq<Row>, kept: seq<Row>, idx: seq<int>)
  {
    && |idx| == |kept|
    && Increasing(idx)
    && (forall k :: 0 <= k < |idx| ==> 0 <= idx[k] < |rows| && kept[k] == rows[idx[k]])
    && (forall j :: 0 <= j < |rows| ==> (Keep(host, rows[j]) <==> j in idx))
  }

  /** The positions of the rows that pass, shifted by `base`. */
  function KeptPositions(host: Host, rows: seq<Row>, base: int): seq<int>
  {
    if rows == [] then []
    else if Keep(host, rows[0]) then [base] + KeptPositions(host, rows[1..], base + 1)
    else KeptPositions(host, rows[1..], base + 1)
  }

  lemma {:induction false} KeptPositionsLength(host: Host, rows: seq<Row>, base: int)
    ensures |KeptPositions(host, rows, base)| == |Validate(host, rows)|
  {
    if rows != [] {
      KeptPositionsLength(host, rows[1..], base + 1);
    }
  }

  lemma {:induction false} KeptPositionsRange(host: Host, rows: seq<Row>, base: int)
    ensures var idx := KeptPositions(host, rows, base);
      && Increasing(idx)
      && (forall k :: 0 <= k < |idx| ==> base <= idx[k] < base + |rows|)
  {
    if rows != [] {
      KeptPositionsRange(host, rows[1..], base + 1);
    }
  }

  lemma {:induction false} KeptPositionsAt(host: Host, rows: seq<Row>, base: int, k: int)
    requires 0 <= k < |KeptPositions(host, rows, base)| && k < |Validate(host, rows)|
    ensures var i := KeptPositions(host, rows, base)[k] - base;
      0 <= i < |rows| && Validate(host, rows)[k] == rows[i]
  {
    KeptPositionsLength(host, rows, base);
    KeptPositionsRange(host, rows, base);
    if Keep(host, rows[0]) {
      if k > 0 {
        KeptPositionsAt(host, rows[1..], base + 1, k - 1);
      }
    } else {
      KeptPositionsAt(host, rows[1..], base + 1, k);
    }
  }

  lemma {:induction false} KeptPositionsCover(host: Host, rows: seq<Row>, base: int, j: int)
    requires 0 <= j < |rows|
    ensures Keep(host, rows[j]) <==> base + j in KeptPositions(host, rows, base)
  {
    if rows != [] {
      KeptPositionsRange(host, rows[1..], base + 1);
    }
    if j > 0 {
      KeptPositionsCover(host, rows[1..], base + 1, j - 1);
      assert rows[j] == rows[1..][j - 1];
    }
  }

  /** The validator's output is its input with exactly the failing rows removed,
      in the original order, each surviving row unchanged. */
  lemma {:induction false} ValidateIsFilter(host: Host, rows: seq<Row>)
    ensures exists idx :: IsFilterOf(host, rows, Validate(host, rows), idx)
  {
    var idx := KeptPositions(host, rows, 0);
    KeptPositionsLength(host, rows, 0);
    KeptPositionsRange(host, rows, 0);
    forall k | 0 <= k < |idx|
      ensures Validate(host, rows)[k] == rows[idx[k]]
    {
      KeptPositionsAt(host, rows, 0, k);
    }
    forall j | 0 <= j < |rows|
      ensures Keep(host, rows[j]) <==> j in idx
    {
      KeptPositionsCover(host, rows, 0, j);
    }
    assert |idx| == |Validate(host, rows)|;
    assert Increasing(idx);
    assert IsFilterOf(host, rows, Validate(host, rows), idx);
  }

  /** A row passes exactly when it appears in the output. */
  lemma {:induction false} ValidateMembership(host: Host, rows: seq<Row>, row: Row)
    ensures row in Validate(host, rows) <==> row in rows && Keep(host, row)
  {
    if rows != [] {
      ValidateMembership(host, rows[1..], row);
      assert rows == [rows[0]] + rows[1..];
    }
  }

  /** Input that already passes is returned as it is. */
  lemma {:induction false} ValidateAllKept(host: Host, rows: seq<Row>)
    requires AllKept(host, rows)
    ensures Validate(host, rows) == rows
  {
    if rows != [] {
      ValidateAllKept(host, rows[1..]);
    }
  }

  /** Validation is idempotent. */
  lemma ValidateIdempotent(host: Host, rows: seq<Row>)
    ensures Validate(host, Validate(host, rows)) == Validate(host, rows)
  {
    ValidateAllKept(host, Validate(host, rows));
  }

  /** Rows are judged independently: validating a concatenation validates each part. */
  lemma {:induction false} ValidateAppend(host: Host, a: seq<Row>, b: seq<Row>)
    ensures Validate(host, a + b) == Validate(host, a) + Validate(host, b)
  {
    if a == [] {
      assert a + b == b;
    } else {
      assert (a + b)[0] == a[0];
      assert (a + b)[1..] == a[1..] + b;
      ValidateAppend(host, a[1..], b);
    }
  }

  /** A null entry, or a row whose supplier name, date or amount is falsy
      (`undefined`, `null`, `false`, `0`, `""`), never reaches the output. */
  lemma FalsyFieldRejected(host: Host, rows: seq<Row>, row: Row)
    requires
      || row.Nothing?
      || !Truthy(row.supplierName) || !Truthy(row.poDate) || !Truthy(row.poAmount)
    ensures row !in Validate(host, rows)
  {
  }

  /** A row whose date is not a valid Date, or whose amount parses to NaN, never
      reaches the output. */
  lemma UnparseableRejected(host: Host, rows: seq<Row>, row: Row)
    requires row.Record?
    requires ParseDate(host, row.poDate).None? || ParseAmount(host, row.poAmount).None?
    ensures row !in Validate(host, rows)
  {
  }

  /** A row with a numeric amount, a truthy supplier name and a valid date
      survives exactly when it is an input row and its amount is not zero. */
  lemma NumericAmountRule(host: Host, rows: seq<Row>, row: Row, x: real)
    requires row.Record? && row.poAmount == Num(x)
    requires Truthy(row.supplierName) && Truthy(row.poDate) && ParseDate(host, row.poDate).Some?
    ensures row in Validate(host, rows) <==> row in rows && x != 0.0
  {
    ValidateMembership(host, rows, row);
  }
}
