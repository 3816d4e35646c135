/** `convert_blockmask` in `flash_attn/flash_blocksparse_attn_interface.py`: a 0-1 block mask
    becomes, column by column, the list of its nonzero rows with flags for the first and last
    nonzero block of a row. */
module BlockMaskEncoder {
  import opened StableSort

  /** The mask is not for causal use; indexing the last column of an empty row is an error. */
  datatype Error = AssertionError | IndexError

  datatype Result<T> = Success(value: T) | Failure(error: Error)

  ghost predicate Rectangular(mask: seq<seq<bool>>, ncol: nat) {
    forall r | 0 <= r < |mask| :: |mask[r]| == ncol
  }

  function Column(mask: seq<seq<bool>>, ncol: nat, c: nat): (v: seq<bool>)
    requires Rectangular(mask, ncol) && c < ncol
    ensures |v| == |mask| && forall r | 0 <= r < |mask| :: v[r] == mask[r][c]
  {
    seq(|mask|, r requires 0 <= r < |mask| => mask[r][c])
  }

  // ---------------------------------------------------------------- the format

  ghost predicate IsFirst(row: seq<bool>, c: nat)
    requires c < |row|
  {
    row[c] && forall d | 0 <= d < c :: !row[d]
  }

  ghost predicate IsLast(row: seq<bool>, c: nat)
    requires c < |row|
  {
    row[c] && forall d | c < d < |row| :: !row[d]
  }

  /** A row index with its two flags. */
  ghost function Entry(row: seq<bool>, r: nat, c: nat): int
    requires c < |row|
  {
    4 * r + (if IsLast(row, c) then 2 else 0) + (if IsFirst(row, c) then 1 else 0)
  }

  /** One column: its nonzero rows in increasing order with their flags, then -1. */
  ghost function EncodedColumn(mask: seq<seq<bool>>, ncol: nat, c: nat): (e: seq<int>)
    requires Rectangular(mask, ncol) && c < ncol
    ensures |e| == |mask|
  {
    var rows := Nonzero(Column(mask, ncol, c));
    seq(|mask|, k requires 0 <= k < |mask| => if k < |rows| then Entry(mask[rows[k]], rows[k], c) else -1)
  }

  ghost function Encoded(mask: seq<seq<bool>>, ncol: nat): seq<seq<int>>
    requires Rectangular(mask, ncol)
  {
    seq(ncol, c requires 0 <= c < ncol => EncodedColumn(mask, ncol, c))
  }

  // ---------------------------------------------------------------- the index arrays

  /** nonzero_sorted_rowidx, one column. */
  function SortedRows(mask: seq<seq<bool>>, ncol: nat, c: nat): (p: seq<nat>)
    requires Rectangular(mask, ncol) && c < ncol
    ensures |p| == |mask| && forall i | 0 <= i < |p| :: p[i] < |mask|
  {
    Argsort(Negated(Column(mask, ncol, c)))
  }

  /** nonzero_unsorted_rowidx, one column: where each row went. */
  function UnsortedRows(mask: seq<seq<bool>>, ncol: nat, c: nat): (q: seq<nat>)
    requires Rectangular(mask, ncol) && c < ncol
    ensures |q| == |mask| && forall i | 0 <= i < |q| :: q[i] < |mask|
  {
    Argsort(SortedRows(mask, ncol, c))
  }

  /** last_nonzero_col_per_row and first_nonzero_col_per_row. */
  function LastCol(row: seq<bool>): (c: nat)
    requires row != []
    ensures c < |row|
  {
    Argsort(Values(row))[|row| - 1]
  }

  function FirstCol(row: seq<bool>): (c: nat)
    requires row != []
    ensures c < |row|
  {
    Argsort(Negated(row))[0]
  }

  /** Every nonzero position lies between the first and the last of the list. */
  lemma WithinEnds(row: seq<bool>, d: nat)
    requires d < |row| && row[d]
    ensures var p := Nonzero(row); p != [] && p[0] <= d <= p[|p| - 1]
  {
    var p := Nonzero(row);
    hide Nonzero;
    assert d in p;
    var i :| 0 <= i < |p| && p[i] == d;
  }

  lemma EndsAreFirstAndLast(row: seq<bool>, c: nat, f: nat, l: nat)
    requires c < |row| && f < |row| && l < |row| && row[c] && row[f] && row[l]
    requires forall d | 0 <= d < |row| && row[d] :: f <= d <= l
    ensures (f == c <==> IsFirst(row, c)) && (l == c <==> IsLast(row, c))
  {
  }

  lemma EndsOfNonzero(row: seq<bool>, c: nat)
    requires c < |row| && row[c]
    ensures var p := Nonzero(row);
            p != [] && (p[0] == c <==> IsFirst(row, c)) && (p[|p| - 1] == c <==> IsLast(row, c))
  {
    hide Nonzero, IsFirst, IsLast;
    WithinEnds(row, c);
    var p := Nonzero(row);
    forall d | 0 <= d < |row| && row[d] ensures p[0] <= d <= p[|p| - 1] {
      WithinEnds(row, d);
    }
    EndsAreFirstAndLast(row, c, p[0], p[|p| - 1]);
  }

  /** In a row with a nonzero block they are its true last and first column. */
  lemma LastColIsLast(row: seq<bool>, c: nat)
    requires c < |row| && row[c]
    ensures LastCol(row) == c <==> IsLast(row, c)
  {
    hide Nonzero, Argsort, IsLast, IsFirst;
    EndsOfNonzero(row, c);
    AscendingSplits(row);
  }

  lemma FirstColIsFirst(row: seq<bool>, c: nat)
    requires c < |row| && row[c]
    ensures FirstCol(row) == c <==> IsFirst(row, c)
  {
    hide Nonzero, Argsort, IsLast, IsFirst;
    EndsOfNonzero(row, c);
    DescendingSplits(row);
  }

  /** UnsortedRows inverts SortedRows. */
  lemma RowsInvert(mask: seq<seq<bool>>, ncol: nat, c: nat)
    requires Rectangular(mask, ncol) && c < ncol
    ensures forall i | 0 <= i < |mask| :: UnsortedRows(mask, ncol, c)[SortedRows(mask, ncol, c)[i]] == i
    ensures forall r | 0 <= r < |mask| :: SortedRows(mask, ncol, c)[UnsortedRows(mask, ncol, c)[r]] == r
  {
    ArgsortIsPermutation(Negated(Column(mask, ncol, c)));
    hide Argsort;
    ArgsortInverts(SortedRows(mask, ncol, c));
  }

  /** The cells the flags of two rows are added to are different, whatever column each row
      picks: the in-place updates cannot lose one another. */
  lemma FlagCellsAreDistinct(mask: seq<seq<bool>>, ncol: nat, r: nat, s: nat, cr: nat, cs: nat)
    requires Rectangular(mask, ncol) && r < s < |mask| && cr < ncol && cs < ncol
    ensures (UnsortedRows(mask, ncol, cr)[r], cr) != (UnsortedRows(mask, ncol, cs)[s], cs)
  {
    RowsInvert(mask, ncol, cr);
  }

  // ---------------------------------------------------------------- the in-place algorithm

  /** One of the first n index pairs names the cell. */
  ghost predicate Hit(rows: seq<nat>, cols: seq<nat>, n: nat, i: nat, j: nat)
    requires n <= |rows| == |cols|
  {
    exists k :: 0 <= k < n && rows[k] == i && cols[k] == j
  }

  /** `a[rows, cols] += d`: gather, add, write back. */
  method AddAt(a: array2<int>, rows: seq<nat>, cols: seq<nat>, d: int)
    requires |rows| == |cols|
    requires forall k | 0 <= k < |rows| :: rows[k] < a.Length0 && cols[k] < a.Length1
    modifies a
    ensures forall i, j | 0 <= i < a.Length0 && 0 <= j < a.Length1 ::
              a[i, j] == old(a[i, j]) + (if Hit(rows, cols, |rows|, i, j) then d else 0)
  {
    var gathered := seq(|rows|, k requires 0 <= k < |rows| reads a
                        requires rows[k] < a.Length0 && cols[k] < a.Length1 => a[rows[k], cols[k]] + d);
    var k := 0;
    while k < |rows|
      invariant k <= |rows|
      invariant forall i, j | 0 <= i < a.Length0 && 0 <= j < a.Length1 ::
                  a[i, j] == old(a[i, j]) + (if Hit(rows, cols, k, i, j) then d else 0)
    {
      a[rows[k], cols[k]] := gathered[k];
      k := k + 1;
    }
  }

  /** A row's flag lands in the cell that holds the row, in the column it picked. */
  lemma FlagHits(mask: seq<seq<bool>>, ncol: nat, at: seq<nat>, cols: seq<nat>, i: nat, c: nat)
    requires Rectangular(mask, ncol) && i < |mask| && c < ncol && |at| == |cols| == |mask|
    requires forall r | 0 <= r < |mask| :: cols[r] < ncol && at[r] == UnsortedRows(mask, ncol, cols[r])[r]
    ensures Hit(at, cols, |at|, i, c) <==> cols[SortedRows(mask, ncol, c)[i]] == c
  {
    hide SortedRows, UnsortedRows;
    RowsInvert(mask, ncol, c);
    var r := SortedRows(mask, ncol, c)[i];
    if cols[r] == c { assert at[r] == i; }
  }

  /** What the cell at (i, c) must hold, by the row that the sort put there. */
  lemma CellIsEncoded(mask: seq<seq<bool>>, ncol: nat, i: nat, c: nat)
    requires Rectangular(mask, ncol) && i < |mask| && c < ncol
    ensures var r := SortedRows(mask, ncol, c)[i];
            EncodedColumn(mask, ncol, c)[i] ==
            if !mask[r][c] then -1
            else 4 * r + (if LastCol(mask[r]) == c then 2 else 0) + (if FirstCol(mask[r]) == c then 1 else 0)
  {
    hide Argsort, Nonzero, Negated, LastCol, FirstCol, IsFirst, IsLast;
    var v := Column(mask, ncol, c);
    DescendingSplits(v);
    var r := SortedRows(mask, ncol, c)[i];
    if mask[r][c] {
      LastColIsLast(mask[r], c);
      FirstColIsFirst(mask[r], c);
    }
  }

  method ConvertBlockmask(mask: seq<seq<bool>>, ncol: nat, causal: bool) returns (r: Result<seq<seq<int>>>)
    requires Rectangular(mask, ncol)
    ensures r == if causal then Failure(AssertionError)
                 else if ncol == 0 then Failure(IndexError)
                 else Success(Encoded(mask, ncol))
  {
    hide StableSort.Argsort, Hit, Entry, SortedRows, UnsortedRows, FirstCol, LastCol, EncodedColumn;
    if causal { return Failure(AssertionError); }
    var nrow := |mask|;
    if ncol == 0 { return Failure(IndexError); }
    var sorted := seq(ncol, c requires 0 <= c < ncol => SortedRows(mask, ncol, c));
    var unsorted := seq(ncol, c requires 0 <= c < ncol => UnsortedRows(mask, ncol, c));
    var lastCol := seq(nrow, x requires 0 <= x < nrow => LastCol(mask[x]));
    var lastAt := seq(nrow, x requires 0 <= x < nrow => unsorted[lastCol[x]][x]);
    var firstCol := seq(nrow, x requires 0 <= x < nrow => FirstCol(mask[x]));
    var firstAt := seq(nrow, x requires 0 <= x < nrow => unsorted[firstCol[x]][x]);
    var idx := new int[nrow, ncol]((i, c) requires 0 <= i < nrow && 0 <= c < ncol => sorted[c][i] * 4);
    AddAt(idx, lastAt, lastCol, 2);
    AddAt(idx, firstAt, firstCol, 1);
    forall i, c | 0 <= i < nrow && 0 <= c < ncol && !mask[sorted[c][i]][c] {
      idx[i, c] := -1;
    }
    forall i, c | 0 <= i < nrow && 0 <= c < ncol ensures idx[i, c] == EncodedColumn(mask, ncol, c)[i] {
      CellIsEncoded(mask, ncol, i, c);
      FlagHits(mask, ncol, lastAt, lastCol, i, c);
      FlagHits(mask, ncol, firstAt, firstCol, i, c);
    }
    var columns := seq(ncol, c requires 0 <= c < ncol reads idx =>
                         seq(nrow, i requires 0 <= i < nrow reads idx => idx[i, c]));
    assert columns == Encoded(mask, ncol) by {
      forall c | 0 <= c < ncol ensures columns[c] == EncodedColumn(mask, ncol, c) {}
    }
    r := Success(columns);
  }

  // ---------------------------------------------------------------- what the format means

  /** The mask is recovered: row r of column c is set when some entry of the column names r. */
  ghost predicate Names(e: seq<int>, r: nat) {
    exists k :: 0 <= k < |e| && e[k] >= 0 && e[k] / 4 == r
  }

  ghost function Decoded(e: seq<seq<int>>, nrow: nat): seq<seq<bool>> {
    seq(nrow, r requires 0 <= r < nrow => seq(|e|, c requires 0 <= c < |e| => Names(e[c], r)))
  }

  /** Entries of a column: rows in increasing order, then only -1. */
  lemma ColumnIsSorted(mask: seq<seq<bool>>, ncol: nat, c: nat, k: nat, l: nat)
    requires Rectangular(mask, ncol) && c < ncol && k < l < |mask|
    ensures var e := EncodedColumn(mask, ncol, c);
            && -1 <= e[k] && (e[k] == -1 ==> e[l] == -1)
            && (e[l] >= 0 ==> e[k] / 4 < e[l] / 4)
  {
    hide Nonzero, IsFirst, IsLast;
  }

  lemma Bits(row: seq<bool>, r: nat, c: nat)
    requires c < |row|
    ensures var x := Entry(row, r, c);
            x / 4 == r && (x % 2 == 1 <==> IsFirst(row, c)) && (x / 2 % 2 == 1 <==> IsLast(row, c))
  {
    hide IsFirst, IsLast;
  }

  /** An entry names a nonzero block of its column and carries exactly the flags of that block. */
  lemma EntryTells(mask: seq<seq<bool>>, ncol: nat, c: nat, k: nat)
    requires Rectangular(mask, ncol) && c < ncol && k < |mask| && EncodedColumn(mask, ncol, c)[k] >= 0
    ensures var x := EncodedColumn(mask, ncol, c)[k];
            && x / 4 < |mask| && mask[x / 4][c]
            && (x % 2 == 1 <==> IsFirst(mask[x / 4], c))
            && (x / 2 % 2 == 1 <==> IsLast(mask[x / 4], c))
  {
    hide Nonzero, IsFirst, IsLast, Entry;
    var rows := Nonzero(Column(mask, ncol, c));
    var r := rows[k];
    Bits(mask[r], r, c);
  }

  lemma RowHasEntry(mask: seq<seq<bool>>, ncol: nat, r: nat, c: nat)
    requires Rectangular(mask, ncol) && c < ncol && r < |mask| && mask[r][c]
    ensures Names(EncodedColumn(mask, ncol, c), r)
  {
    hide Nonzero, IsFirst, IsLast;
    var v := Column(mask, ncol, c);
    var rows := Nonzero(v);
    assert v[r] && r in rows;
    NonzeroCounts(v);
    var k :| 0 <= k < |rows| && rows[k] == r;
    var x := EncodedColumn(mask, ncol, c)[k];
    assert x == Entry(mask[r], r, c);
    assert x >= 0 && x / 4 == r;
  }

  lemma NamesExactly(mask: seq<seq<bool>>, ncol: nat, r: nat, c: nat)
    requires Rectangular(mask, ncol) && c < ncol && r < |mask|
    ensures Names(EncodedColumn(mask, ncol, c), r) <==> mask[r][c]
  {
    var e := EncodedColumn(mask, ncol, c);
    if mask[r][c] {
      RowHasEntry(mask, ncol, r, c);
    } else if Names(e, r) {
      var k :| 0 <= k < |e| && e[k] >= 0 && e[k] / 4 == r;
      EntryTells(mask, ncol, c, k);
    }
  }

  /** Decoding the encoding gives back the mask. */
  lemma RoundTrip(mask: seq<seq<bool>>, ncol: nat)
    requires Rectangular(mask, ncol)
    ensures Decoded(Encoded(mask, ncol), |mask|) == mask
  {
    hide Names, EncodedColumn;
    var d := Decoded(Encoded(mask, ncol), |mask|);
    forall r | 0 <= r < |mask| ensures d[r] == mask[r] {
      forall c | 0 <= c < ncol ensures d[r][c] == mask[r][c] {
        NamesExactly(mask, ncol, r, c);
      }
    }
  }

  // ---------------------------------------------------------------- one first and one last flag

  /** Cell (c, k) belongs to row r and carries the flag of weight w (1 first, 2 last). */
  ghost predicate Flagged(e: seq<seq<int>>, r: nat, w: nat, c: nat, k: nat)
    requires w > 0
  {
    c < |e| && k < |e[c]| && e[c][k] >= 0 && e[c][k] / 4 == r && e[c][k] / w % 2 == 1
  }

  lemma {:induction false} FirstExists(row: seq<bool>, n: nat) returns (c: nat)
    requires n < |row| && row[n]
    ensures c <= n && IsFirst(row, c)
  {
    if d :| 0 <= d < n && row[d] { c := FirstExists(row, d); } else { c := n; }
  }

  lemma {:induction false} LastExists(row: seq<bool>, n: nat) returns (c: nat)
    requires n < |row| && row[n]
    ensures n <= c < |row| && IsLast(row, c)
    decreases |row| - n
  {
    if d :| n < d < |row| && row[d] { c := LastExists(row, d); } else { c := n; }
  }

  lemma FlagMeans(mask: seq<seq<bool>>, ncol: nat, r: nat, w: nat, c: nat, k: nat)
    requires Rectangular(mask, ncol) && r < |mask| && (w == 1 || w == 2) && Flagged(Encoded(mask, ncol), r, w, c, k)
    ensures c < ncol && mask[r][c] && if w == 1 then IsFirst(mask[r], c) else IsLast(mask[r], c)
  {
    hide EncodedColumn, IsFirst, IsLast;
    EntryTells(mask, ncol, c, k);
  }

  lemma FlagIsUnique(mask: seq<seq<bool>>, ncol: nat, r: nat, w: nat, c: nat, k: nat, c': nat, k': nat)
    requires Rectangular(mask, ncol) && r < |mask| && (w == 1 || w == 2)
    requires Flagged(Encoded(mask, ncol), r, w, c, k) && Flagged(Encoded(mask, ncol), r, w, c', k')
    ensures c == c' && k == k'
  {
    hide EncodedColumn;
    FlagMeans(mask, ncol, r, w, c, k);
    FlagMeans(mask, ncol, r, w, c', k');
    if k < k' {
      ColumnIsSorted(mask, ncol, c, k, k');
    } else if k' < k {
      ColumnIsSorted(mask, ncol, c, k', k);
    }
  }

  lemma FlagExists(mask: seq<seq<bool>>, ncol: nat, r: nat, w: nat, n: nat) returns (c: nat, k: nat)
    requires Rectangular(mask, ncol) && r < |mask| && (w == 1 || w == 2) && n < ncol && mask[r][n]
    ensures Flagged(Encoded(mask, ncol), r, w, c, k)
  {
    hide EncodedColumn;
    if w == 1 { c := FirstExists(mask[r], n); } else { c := LastExists(mask[r], n); }
    RowHasEntry(mask, ncol, r, c);
    var e := EncodedColumn(mask, ncol, c);
    k :| 0 <= k < |e| && e[k] >= 0 && e[k] / 4 == r;
    EntryTells(mask, ncol, c, k);
  }

  /** The row of a nonzero block has one cell with a first flag, in the first nonzero column,
      and one with a last flag, in the last; a row without blocks has no cell at all. */
  lemma OneFlagOfEachKind(mask: seq<seq<bool>>, ncol: nat, r: nat, w: nat)
    requires Rectangular(mask, ncol) && r < |mask| && (w == 1 || w == 2)
    ensures forall c: nat, k: nat :: Flagged(Encoded(mask, ncol), r, w, c, k) ==>
              c < ncol && if w == 1 then IsFirst(mask[r], c) else IsLast(mask[r], c)
    ensures forall c: nat, k: nat, c': nat, k': nat ::
              Flagged(Encoded(mask, ncol), r, w, c, k) && Flagged(Encoded(mask, ncol), r, w, c', k') ==>
                c == c' && k == k'
    ensures (exists c | 0 <= c < ncol :: mask[r][c])
            <==> exists c: nat, k: nat :: Flagged(Encoded(mask, ncol), r, w, c, k)
  {
    var e := Encoded(mask, ncol);
    forall c: nat, k: nat | Flagged(e, r, w, c, k)
      ensures c < ncol && mask[r][c] && if w == 1 then IsFirst(mask[r], c) else IsLast(mask[r], c)
    {
      FlagMeans(mask, ncol, r, w, c, k);
    }
    forall c: nat, k: nat, c': nat, k': nat | Flagged(e, r, w, c, k) && Flagged(e, r, w, c', k')
      ensures c == c' && k == k'
    {
      FlagIsUnique(mask, ncol, r, w, c, k, c', k');
    }
    if n :| 0 <= n < ncol && mask[r][n] {
      var c, k := FlagExists(mask, ncol, r, w, n);
    }
  }
}
