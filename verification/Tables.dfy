/** Datasets read batch by batch, and the library functions a monitoring check relies on. */
module Tables {
  import opened Wrappers
  import opened Batches
  import G = Regression
  import P = Psi

  // A value of a frame whose columns were already checked and converted.
  datatype Cell = Missing | Number(value: real) | Text(text: string)

  type Name = string

  type Row = Name -> Cell

  datatype Dtype = StringType | IntegerType | NumberType | BooleanType

  predicate IsNumeric(t: Dtype) {
    t == IntegerType || t == NumberType
  }

  // Library functions, over exact numbers; `bytes` is the length of a string in UTF-8.
  datatype Runtime = Runtime(
    ln: real -> real,
    sqrt: real -> real,
    nextAfter: real -> real,
    show: real -> string,
    parse: string -> real,
    bytes: string -> nat)

  // What the proofs need of them, which is true of the real ones.
  ghost predicate Faithful(rt: Runtime) {
    P.IsLog(rt.ln) && G.IsRoot(rt.sqrt) && forall x: real :: x < rt.nextAfter(x)
  }

  /** The needs can be met together, and by far simpler functions than the real ones. */
  lemma FaithfulCanBeMet()
    ensures exists rt :: Faithful(rt)
  {
    SimpleLogIsLog();
    SimpleRootIsRoot();
    var rt := Runtime(SimpleLog, SimpleRoot, SimpleRoot, (x: real) => "", (s: string) => 0.0, (s: string) => |s|);
    assert Faithful(rt);
  }

  function SimpleLog(x: real): real { if x > 0.0 then x - 1.0 / x else 0.0 }

  function SimpleRoot(x: real): real { x + 1.0 }

  lemma SimpleLogIsLog()
    ensures P.IsLog(SimpleLog)
  {
    forall x: real, y: real | 0.0 < x < y ensures SimpleLog(x) < SimpleLog(y) {
      ReciprocalDescends(x, y);
    }
    forall x: real | 0.0 < x ensures SimpleLog(1.0 / x) == -SimpleLog(x) {
      P.Reciprocal(1.0, x);
    }
  }

  lemma ReciprocalDescends(x: real, y: real)
    requires 0.0 < x < y
    ensures 1.0 / y < 1.0 / x
  {
    P.Quotient(1.0, x);
    P.Quotient(1.0, y);
    FactorDescends(x, y, 1.0 / x, 1.0 / y);
  }

  lemma FactorDescends(x: real, y: real, p: real, q: real)
    requires 0.0 < x < y && p > 0.0 && p * x == q * y
    ensures q < p
  {
    var e := (y - x) * p;
    G.ProductSign(y - x, p, e);
    assert (p - q) * y == e;
    G.ProductSign(p - q, y, e);
  }

  lemma SimpleRootIsRoot()
    ensures G.IsRoot(SimpleRoot)
  {
    forall x: real, y: real | G.SquareAtMost(y, x) ensures y <= SimpleRoot(x) {
      if y > 1.0 {
        assert (y - 1.0) * y == y * y - y;
        P.Sign(y - 1.0, y);
      }
    }
  }

  // What str and float make of a value that is not missing.
  function Str(rt: Runtime, c: Cell): string {
    match c
    case Missing => "<NA>"
    case Number(x) => rt.show(x)
    case Text(t) => t
  }

  function Float(rt: Runtime, c: Cell): real {
    match c
    case Missing => 0.0
    case Number(x) => x
    case Text(t) => rt.parse(t)
  }

  // A file as the batches it is read in.
  type File = seq<seq<Row>>

  // Whether a file is read to its end without an error.
  predicate Readable(file: File, maxRows: int, rowCount: Option<nat>) {
    |Rows(file)| <= maxRows && (rowCount.Some? ==> |Rows(file)| == rowCount.value)
  }

  /** A file is given up at the first batch beyond the limit; how it is cut into batches decides nothing. */
  method Frames(file: File, maxRows: int, rowCount: Option<nat>) returns (ok: bool)
    requires 0 <= maxRows
    ensures ok <==> Readable(file, maxRows, rowCount)
  {
    var rows := 0;
    RowsOfAll(file);
    for k := 0 to |file|
      invariant rows == |Rows(file[..k])| <= maxRows
    {
      RowsOneMore(file, k);
      rows := rows + |file[k]|;
      if rows > maxRows {
        RowsPrefix(file, k + 1);
        return false;
      }
    }
    return rowCount.Some? ==> rows == rowCount.value;
  }
}
