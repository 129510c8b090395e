/** The engine's columnar values as the Native adapters see them: a block is
    an ordered list of (column, type, name) items, a chunk is a list of bare
    columns plus a row count. Column data is a sequence of opaque cell values. */
module Blocks {
  import opened Wrappers

  datatype DataType = UInt8 | UInt64 | Float64 | String | OtherType(typeName: string)

  /** One cell. A Float64 cell is kept as its bit pattern and never interpreted. */
  datatype Value = UInt(n: nat) | Float(bits: bv64) | Str(s: string)

  type Column = seq<Value>

  datatype ColumnWithTypeAndName = ColumnWithTypeAndName(column: Column, dataType: DataType, name: string)

  /** A block; a port header is a block whose columns are not looked at. */
  type Block = seq<ColumnWithTypeAndName>

  datatype Chunk = Chunk(columns: seq<Column>, numRows: nat)

  datatype FormatError =
    | StructureMismatch    // the block's columns differ from the port header
    | ColumnSizeMismatch   // the block's columns have different row counts

  /** The chunk returned at end of data. */
  const EmptyChunk: Chunk := Chunk([], 0)

  /** A chunk is false in a boolean test when it has neither rows nor columns. */
  predicate IsEmpty(c: Chunk) {
    c.numRows == 0 && c.columns == []
  }

  /** Same number of columns, and position by position the same name and type. */
  predicate EqualStructure(a: Block, b: Block) {
    |a| == |b| && forall i :: 0 <= i < |a| ==> a[i].name == b[i].name && a[i].dataType == b[i].dataType
  }

  /** Row count of a block: the size of its first column, 0 without columns. */
  function Rows(b: Block): nat {
    if b == [] then 0 else |b[0].column|
  }

  /** Every column of the block has the block's row count. */
  predicate HasUniformRows(b: Block) {
    forall i :: 0 <= i < |b| ==> |b[i].column| == Rows(b)
  }

  /** The columns of a block, without names and types. */
  function Columns(b: Block): (cols: seq<Column>)
    ensures |cols| == |b| && forall i :: 0 <= i < |b| ==> cols[i] == b[i].column
  {
    seq(|b|, i requires 0 <= i < |b| => b[i].column)
  }

  /** What the input adapter makes of a block the codec returned: the
      structure check against the port header first, then the row-count
      check, then a chunk holding the block's columns. */
  function BlockToChunk(header: Block, b: Block): (r: Result<Chunk, FormatError>)
    ensures r.Ok? <==> EqualStructure(header, b) && HasUniformRows(b)
    ensures !EqualStructure(header, b) ==> r == Err(StructureMismatch)
    ensures r.Ok? ==> |r.value.columns| == |b| && r.value.numRows == Rows(b)
    ensures r.Ok? ==> forall i :: 0 <= i < |b| ==> r.value.columns[i] == b[i].column
    ensures r.Ok? ==> forall i :: 0 <= i < |b| ==> |r.value.columns[i]| == r.value.numRows
  {
    if !EqualStructure(header, b) then Err(StructureMismatch)
    else if !HasUniformRows(b) then Err(ColumnSizeMismatch)
    else Ok(Chunk(Columns(b), Rows(b)))
  }

  /** What the output adapter writes for a chunk: a copy of the port header
      whose i-th column is replaced by the chunk's i-th column. Columns past
      the header's width are not used. */
  function WithColumns(header: Block, cols: seq<Column>): (b: Block)
    requires |cols| >= |header|
    ensures EqualStructure(header, b)
    ensures |b| == |header| && forall i :: 0 <= i < |b| ==> b[i].column == cols[i]
  {
    seq(|header|, i requires 0 <= i < |header| => header[i].(column := cols[i]))
  }

  /** A well-formed chunk, put under a header of its width, comes back as
      the same chunk. Without columns the row count is lost, hence the
      second requirement. */
  lemma ChunkRoundTrip(header: Block, c: Chunk)
    requires |c.columns| == |header|
    requires forall i :: 0 <= i < |c.columns| ==> |c.columns[i]| == c.numRows
    requires header != [] || c.numRows == 0
    ensures BlockToChunk(header, WithColumns(header, c.columns)) == Ok(c)
  {
    var b := WithColumns(header, c.columns);
    assert HasUniformRows(b);
    assert Columns(b) == c.columns;
  }

  /** Conversely, a block accepted by the input adapter is the port header
      carrying the returned chunk's columns. */
  lemma BlockRoundTrip(header: Block, b: Block)
    requires BlockToChunk(header, b).Ok?
    ensures WithColumns(header, BlockToChunk(header, b).value.columns) == b
  {
    var w := WithColumns(header, BlockToChunk(header, b).value.columns);
    assert forall i :: 0 <= i < |b| ==> w[i] == b[i];
  }
}
