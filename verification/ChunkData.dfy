/** The metadata of an archetype's chunks, kept column by column in flat buffers whose stride is the capacity
    (src/ECS/ArchetypeChunkData.cpp, src/ECS/Archetype.cpp:7-45). */
module ChunkData {
  import opened Collections

  /** One chunk's metadata: the value the columns stand for. */
  datatype Row = Row(chunk: nat, versions: seq<nat>, shared: seq<nat>)

  /** Shared values handed in: an outside array, or a reference into the shared buffer of this very object, which is
      the cell of the first value and the distance from one value to the next. */
  datatype Source = Outside(values: seq<nat>) | Inside(first: nat, stride: nat)

  const InitialChunkListSize: nat := 0x80

  /** The cell of column c and row i when the stride is n: c * n + i. */
  function Cell(n: nat, c: nat, i: nat): nat {
    if c == 0 then i else n + Cell(n, c - 1, i)
  }

  /** The length of a buffer with that many columns. */
  function Size(n: nat, columns: nat): nat {
    Cell(n, columns, 0)
  }

  /** The index the code computes. */
  lemma {:induction false} CellIsProduct(n: nat, c: nat, i: nat)
    ensures Cell(n, c, i) == c * n + i
  {
    if c > 0 {
      CellIsProduct(n, c - 1, i);
      assert c * n == (c - 1) * n + n;
    }
  }

  /** Cells of different columns or rows are different. */
  lemma {:induction false} CellsApart(n: nat, c: nat, i: nat, d: nat, j: nat)
    requires i < n && j < n
    ensures Cell(n, c, i) == Cell(n, d, j) <==> c == d && i == j
  {
    if c > 0 && d > 0 { CellsApart(n, c - 1, i, d - 1, j); }
  }

  /** All cells lie inside the buffer. */
  lemma {:induction false} CellInside(n: nat, c: nat, i: nat, columns: nat)
    requires i < n && c < columns
    ensures Cell(n, c, i) < Size(n, columns)
  {
    if c > 0 { CellInside(n, c - 1, i, columns - 1); }
  }

  /** Row i of a buffer with the given number of columns. */
  function RowOf(cells: seq<nat>, n: nat, columns: nat, i: nat): (r: seq<nat>)
    requires i < n && |cells| == Size(n, columns)
    ensures |r| == columns
  {
    seq(columns, c requires 0 <= c < columns => CellInside(n, c, i, columns); cells[Cell(n, c, i)])
  }

  /** Writes a row, one column after the other. */
  method WriteRow(cells: array<nat>, n: nat, columns: nat, i: nat, values: seq<nat>)
    requires i < n && cells.Length == Size(n, columns) && |values| == columns
    modifies cells
    ensures RowOf(cells[..], n, columns, i) == values
    ensures forall j :: 0 <= j < n && j != i ==> RowOf(cells[..], n, columns, j) == RowOf(old(cells[..]), n, columns, j)
  {
    ghost var before := cells[..];
    var c := 0;
    while c < columns
      invariant 0 <= c <= columns
      invariant RowOf(cells[..], n, columns, i)[..c] == values[..c]
      invariant forall j :: 0 <= j < n && j != i ==> RowOf(cells[..], n, columns, j) == RowOf(before, n, columns, j)
    {
      CellInside(n, c, i, columns);
      CellIsProduct(n, c, i);
      ghost var was := cells[..];
      cells[c * n + i] := values[c];
      SetCell(was, n, columns, c, i, values[c]);
      assert cells[..] == was[Cell(n, c, i) := values[c]];
      c := c + 1;
    }
  }

  /** Reads the values behind a reference, one stride after the other. */
  method ReadRow(cells: array<nat>, first: nat, stride: nat, columns: nat) returns (values: seq<nat>)
    requires first < stride && cells.Length == Size(stride, columns)
    ensures values == RowOf(cells[..], stride, columns, first)
  {
    values := [];
    for c := 0 to columns
      invariant values == RowOf(cells[..], stride, columns, first)[..c]
    {
      CellInside(stride, c, first, columns);
      CellIsProduct(stride, c, first);
      values := values + [cells[first + c * stride]];
    }
  }

  /** Why a reference has to be made anew when the buffer grows: from n to m rows every row may be kept, and still
      the second value is not where the old stride leads. */
  lemma StaleReference(cells: seq<nat>, n: nat, grown: seq<nat>, m: nat, columns: nat, i: nat) returns (stale: seq<nat>)
    requires i < n && 2 * n <= m && columns >= 2 && |cells| == Size(n, columns) && |grown| == Size(m, columns)
    requires forall j :: 0 <= j < n ==> RowOf(grown, m, columns, j) == RowOf(cells, n, columns, j)
    ensures |stale| == |grown| && i + 1 * n < |stale|
    ensures forall j :: 0 <= j < n ==> RowOf(stale, m, columns, j) == RowOf(cells, n, columns, j)
    ensures stale[i + 1 * n] != RowOf(cells, n, columns, i)[1]
  {
    CellIsProduct(m, 0, n + i);
    CellInside(m, 0, n + i, columns);
    SetCell(grown, m, columns, 0, n + i, RowOf(cells, n, columns, i)[1] + 1);
    stale := grown[n + i := RowOf(cells, n, columns, i)[1] + 1];
  }

  /** Writing one cell changes one entry of one row. */
  lemma SetCell(cells: seq<nat>, n: nat, columns: nat, c: nat, i: nat, v: nat)
    requires |cells| == Size(n, columns) && c < columns && i < n
    ensures Cell(n, c, i) < |cells|
    ensures RowOf(cells[Cell(n, c, i) := v], n, columns, i) == RowOf(cells, n, columns, i)[c := v]
    ensures forall j :: 0 <= j < n && j != i ==>
      RowOf(cells[Cell(n, c, i) := v], n, columns, j) == RowOf(cells, n, columns, j)
  {
    CellInside(n, c, i, columns);
    var after := cells[Cell(n, c, i) := v];
    forall j, d | 0 <= j < n && 0 <= d < columns
      ensures RowOf(after, n, columns, j)[d] == if j == i && d == c then v else RowOf(cells, n, columns, j)[d]
    {
      CellInside(n, d, j, columns);
      CellsApart(n, d, j, c, i);
    }
  }

  /** Copies the first `count` entries of every column into a buffer with another stride. */
  method CopyColumns(src: array<nat>, n: nat, dst: array<nat>, m: nat, columns: nat, count: nat)
    requires src != dst && src.Length == Size(n, columns) && dst.Length == Size(m, columns) && count <= n && count <= m
    modifies dst
    ensures forall i :: 0 <= i < count ==> RowOf(dst[..], m, columns, i) == RowOf(src[..], n, columns, i)
  {
    ghost var from := src[..];
    var c := 0;
    while c < columns
      invariant 0 <= c <= columns && src[..] == from
      invariant forall i :: 0 <= i < count ==> RowOf(dst[..], m, columns, i)[..c] == RowOf(from, n, columns, i)[..c]
    {
      CopyColumn(src, n, dst, m, columns, count, c);
      c := c + 1;
    }
    forall i | 0 <= i < count ensures RowOf(dst[..], m, columns, i) == RowOf(from, n, columns, i) {
      assert RowOf(dst[..], m, columns, i)[..columns] == RowOf(from, n, columns, i)[..columns];
    }
  }

  method CopyColumn(src: array<nat>, n: nat, dst: array<nat>, m: nat, columns: nat, count: nat, c: nat)
    requires src != dst && src.Length == Size(n, columns) && dst.Length == Size(m, columns) && count <= n && count <= m
    requires c < columns
    requires forall i :: 0 <= i < count ==> RowOf(dst[..], m, columns, i)[..c] == RowOf(src[..], n, columns, i)[..c]
    modifies dst
    ensures src[..] == old(src[..])
    ensures forall i :: 0 <= i < count ==>
      RowOf(dst[..], m, columns, i)[..c + 1] == RowOf(src[..], n, columns, i)[..c + 1]
  {
    ghost var from := src[..];
    var k := 0;
    while k < count
      invariant 0 <= k <= count && src[..] == from
      invariant forall i :: 0 <= i < k ==> RowOf(dst[..], m, columns, i)[..c + 1] == RowOf(from, n, columns, i)[..c + 1]
      invariant forall i :: k <= i < count ==> RowOf(dst[..], m, columns, i)[..c] == RowOf(from, n, columns, i)[..c]
    {
      CellInside(m, c, k, columns);
      CellInside(n, c, k, columns);
      CellIsProduct(m, c, k);
      CellIsProduct(n, c, k);
      ghost var was := dst[..];
      var v := src[c * n + k];
      dst[c * m + k] := v;
      SetCell(was, m, columns, c, k, v);
      assert dst[..] == was[Cell(m, c, k) := v];
      assert RowOf(dst[..], m, columns, k)[..c + 1] == RowOf(was, m, columns, k)[..c] + [v];
      assert RowOf(from, n, columns, k)[..c + 1] == RowOf(from, n, columns, k)[..c] + [v];
      k := k + 1;
    }
  }

  /** The chunk pointers; the code copies count times four bytes, which is count pointers only if they have four. */
  method CopyPrefix(src: array<nat>, dst: array<nat>, count: nat)
    requires src != dst && count <= src.Length && count <= dst.Length
    modifies dst
    ensures forall i :: 0 <= i < count ==> dst[i] == src[i]
  {
    var i := 0;
    while i < count
      invariant 0 <= i <= count && forall j :: 0 <= j < i ==> dst[j] == src[j]
    {
      dst[i] := src[i];
      i := i + 1;
    }
  }

  class ArchetypeChunkData {
    const componentCount: nat
    const sharedComponentCount: nat
    var chunks: array<nat>
    var versions: array<nat>
    var shared: array<nat>
    var capacity: nat
    var count: nat

    ghost predicate Valid()
      reads this
    {
      && count <= capacity && chunks.Length == capacity
      && versions.Length == Size(capacity, componentCount)
      && shared.Length == Size(capacity, sharedComponentCount)
      && chunks != versions && chunks != shared && versions != shared
    }

    function RowAt(i: nat): Row
      requires Valid() && i < capacity
      reads this, chunks, versions, shared
    {
      Row(chunks[i], RowOf(versions[..], capacity, componentCount, i),
          RowOf(shared[..], capacity, sharedComponentCount, i))
    }

    /** The rows the buffers stand for. */
    function Rows(): (r: seq<Row>)
      requires Valid()
      reads this, chunks, versions, shared
      ensures |r| == count
    {
      seq(count, i requires Valid() && 0 <= i < count reads this, chunks, versions, shared => RowAt(i))
    }

    constructor (components: nat, sharedComponents: nat)
      ensures Valid() && Rows() == [] && capacity == 0
      ensures componentCount == components && sharedComponentCount == sharedComponents
      ensures fresh(chunks) && fresh(versions) && fresh(shared)
    {
      componentCount, sharedComponentCount := components, sharedComponents;
      capacity, count := 0, 0;
      chunks := new nat[0];
      versions := new nat[Size(0, components)];
      shared := new nat[Size(0, sharedComponents)];
    }

    /** The shared values a source stands for. */
    function ValuesOf(source: Source): seq<nat>
      requires Valid() && Readable(source)
      reads this, chunks, versions, shared
    {
      match source
      case Outside(values) => values
      case Inside(first, stride) => RowOf(shared[..], stride, sharedComponentCount, first)
    }

    /** As many values as there are shared components, or a reference to a row there is now. */
    predicate Readable(source: Source)
      reads this
    {
      match source
      case Outside(values) => |values| == sharedComponentCount
      case Inside(first, stride) => first < count <= capacity && stride == capacity
    }

    /** The reference to a row; an index beyond the rows is refused. */
    method GetSharedComponentValues(index: nat) returns (source: Source, ok: bool)
      requires Valid()
      ensures ok <==> index < count
      ensures ok ==> Readable(source) && source == Inside(index, capacity) && ValuesOf(source) == Rows()[index].shared
    {
      source, ok := Inside(index, capacity), index < count;
    }

    /** New buffers of at least the wanted capacity, rounded up to a multiple of 16; every row is kept. */
    method Grow(wanted: nat)
      requires Valid() && capacity < wanted
      modifies this
      ensures Valid() && Rows() == old(Rows()) && count == old(count)
      ensures wanted <= capacity < wanted + 16 && capacity % 16 == 0
      ensures forall i :: 0 <= i < count ==>
        RowOf(shared[..], capacity, sharedComponentCount, i) ==
          RowOf(old(shared[..]), old(capacity), sharedComponentCount, i)
      ensures fresh(chunks) && fresh(versions) && fresh(shared)
    {
      var newCapacity := (wanted + 15) / 16 * 16;
      var nextChunks := new nat[newCapacity];
      var nextVersions := new nat[Size(newCapacity, componentCount)];
      var nextShared := new nat[Size(newCapacity, sharedComponentCount)];
      CopyPrefix(chunks, nextChunks, count);
      CopyColumns(versions, capacity, nextVersions, newCapacity, componentCount, count);
      CopyColumns(shared, capacity, nextShared, newCapacity, sharedComponentCount, count);
      chunks, versions, shared, capacity := nextChunks, nextVersions, nextShared, newCapacity;
    }

    /** Appends a row with one version in every column. A reference into this object needs room already. */
    method Add(chunk: nat, source: Source, version: nat)
      requires Valid() && Readable(source) && (source.Inside? ==> count < capacity)
      modifies this, chunks, versions, shared
      ensures Valid() && count == old(count) + 1
      ensures Rows() == old(Rows()) + [Row(chunk, seq(componentCount, _ => version), old(ValuesOf(source)))]
      ensures old(count < capacity) ==> capacity == old(capacity)
      ensures forall a :: a in {chunks, versions, shared} ==> a in old({chunks, versions, shared}) || fresh(a)
    {
      ghost var values := ValuesOf(source);
      if count == capacity {
        Grow(if capacity < 1 then 4 else capacity * 2);
      }
      var toWrite;
      if source.Inside? {
        toWrite := ReadRow(shared, source.first, source.stride, sharedComponentCount);
      } else {
        toWrite := source.values;
      }
      var index := count;
      ghost var before := Rows();
      label L:
      chunks[index] := chunk;
      WriteRow(versions, capacity, componentCount, index, seq(componentCount, _ => version));
      WriteRow(shared, capacity, sharedComponentCount, index, toWrite);
      count := count + 1;
      forall i | 0 <= i < index ensures Rows()[i] == before[i] {}
    }

    /** addToChunkList: grows first when full, and if the values are those of a row of this object, refers to that
        row anew. The row is the distance of the reference from the first column. */
    method AddToChunkList(chunk: nat, source: Source, version: nat)
      requires Valid() && Readable(source)
      modifies this, chunks, versions, shared
      ensures Valid() && count == old(count) + 1
      ensures Rows() == old(Rows()) + [Row(chunk, seq(componentCount, _ => version), old(ValuesOf(source)))]
      ensures old(count < capacity) ==> capacity == old(capacity)
      ensures old(count == capacity) ==>
        if old(capacity) == 0 then capacity == InitialChunkListSize
        else 2 * old(capacity) <= capacity < 2 * old(capacity) + 16
    {
      var values := source;
      if count == capacity {
        Grow(if capacity < 1 then InitialChunkListSize else capacity * 2);
        if source.Inside? {
          var ok;
          values, ok := GetSharedComponentValues(source.first);
        }
      }
      Add(chunk, values, version);
    }

    /** Replaces the row by the last one and drops the last; refuses an index beyond the rows. */
    method RemoveAtSwapBack(index: nat) returns (ok: bool)
      requires Valid()
      modifies this, chunks, versions, shared
      ensures Valid() && (ok <==> index < old(count))
      ensures Rows() == if ok then SwapBack(old(Rows()), index) else old(Rows())
    {
      if index >= count {
        return false;
      }
      ok := true;
      ghost var before := Rows();
      count := count - 1;
      if index == count {
        return;
      }
      ghost var last := RowAt(count);
      chunks[index] := chunks[count];
      var vs := RowOf(versions[..], capacity, componentCount, count);
      WriteRow(versions, capacity, componentCount, index, vs);
      var ss := RowOf(shared[..], capacity, sharedComponentCount, count);
      WriteRow(shared, capacity, sharedComponentCount, index, ss);
      forall i | 0 <= i < count ensures Rows()[i] == if i == index then before[count] else before[i] {}
    }
  }
}
