/** The loops over the columns of chunks: copying rows inside a chunk, initializing new rows, converting rows to
    another archetype's columns and calling destructors (src/ECS/Archetype.cpp:174-196, 276-298, 490-565,
    src/ECS/EntityComponentStore.cpp:376-393). */
module ChunkColumns {
  import opened Types
  import opened EntityBlocks
  import opened Archetypes
  import opened EntityRows
  import opened EntityMoves

  /** The types with a column are the ones before the tags. */
  lemma Columns(kind: Kind, i: nat)
    requires KindOk(kind) && i < |kind.types|
    ensures kind.types[i] in Stored(kind.types) <==> i < kind.firstTag
    ensures EntityType in Stored(kind.types)
  {
    assert kind.types[0] in kind.types;
  }

  /** b after the columns of the first t types were copied. */
  function CopiedUpto(b: Buffer, types: seq<nat>, t: nat, from: nat, to: nat, n: nat): Buffer
    requires t <= |types|
  {
    if t == 0 then b
    else
      var b1 := CopiedUpto(b, types, t - 1, from, to, n);
      if types[t - 1] in b1 then b1[types[t - 1] := CopyColumn(b1[types[t - 1]], from, to, n)] else b1
  }

  lemma {:induction false} CopiedColumns(b: Buffer, types: seq<nat>, t: nat, from: nat, to: nat, n: nat)
    requires t <= |types| && Sorted(types)
    ensures CopiedUpto(b, types, t, from, to, n) ==
      map x | x in b :: if x in Elems(types[..t]) then CopyColumn(b[x], from, to, n) else b[x]
  {
    if t == 0 {
      assert types[..0] == [];
    } else {
      CopiedColumns(b, types, t - 1, from, to, n);
      ElemsStep(types, t);
    }
  }

  /** copy: every column of the archetype, by memcpy between rows that do not overlap. */
  method Copy(kind: Kind, b: Buffer, from: nat, to: nat, n: nat) returns (b1: Buffer)
    requires KindOk(kind) && IsBuffer(b, kind) && to + n <= from && from + n <= kind.capacity
    ensures b1 == CopyRows(b, from, to, n)
  {
    b1 := b;
    for t := 0 to |kind.types|
      invariant b1 == CopiedUpto(b, kind.types, t, from, to, n)
    {
      var type_ := kind.types[t];
      if type_ in b1 {
        b1 := b1[type_ := CopyColumn(b1[type_], from, to, n)];
      }
    }
    CopiedColumns(b, kind.types, |kind.types|, from, to, n);
    assert kind.types[..|kind.types|] == kind.types;
    InElems(kind.types);
  }

  /** The rows a conversion is about: n rows of bs from row `from` on, to rows from row `to` on. */
  datatype Job = Job(bs: Buffer, from: nat, to: nat, n: nat)

  function Column(job: Job, d: seq<Value>, t: nat, shared: bool): seq<Value> {
    ConvertColumn(d, if shared && t in job.bs then job.bs[t] else [], job.from, job.to, job.n)
  }

  /** What the merge of convert makes of a buffer from source types below m and destination types below n. */
  function Merged(job: Job, src: seq<nat>, m: nat, dst: seq<nat>, n: nat, b: Buffer, dead: seq<nat>): (Buffer, seq<nat>)
    requires m <= |src| && n <= |dst|
  {
    if n == 0 then (b, dead)
    else
      var t := dst[n - 1];
      if m > 0 && src[m - 1] > t then Merged(job, src, m - 1, dst, n, b, dead + [m - 1])
      else if t !in b then (b, dead)
      else if m > 0 && src[m - 1] == t then
        Merged(job, src, m - 1, dst, n - 1, b[t := Column(job, b[t], t, true)], dead)
      else Merged(job, src, m, dst, n - 1, b[t := Column(job, b[t], t, false)], dead)
  }

  /** The indices below m of the source types missing from a set of columns, the last first. */
  function SourceOnly(src: seq<nat>, m: nat, columns: set<nat>): seq<nat>
    requires m <= |src|
  {
    if m == 0 then [] else (if src[m - 1] in columns then [] else [m - 1]) + SourceOnly(src, m - 1, columns)
  }

  /** b with the columns in ts converted. */
  function Converts(job: Job, ts: set<nat>, b: Buffer): Buffer {
    map t | t in b :: if t in ts then Column(job, b[t], t, true) else b[t]
  }

  /** The columns of the source are the source types ahead, and of those the destination types ahead are wanted. */
  ghost predicate Ahead(bs: Buffer, ss: set<nat>, ds: set<nat>, columns: set<nat>) {
    && (forall t :: t in ds ==> (t in bs <==> t in ss))
    && (forall t :: t in ss ==> (t in columns <==> t in ds))
  }

  lemma AheadStep(bs: Buffer, ss: set<nat>, x: nat, ds: set<nat>, y: nat, columns: set<nat>)
    requires AllBelow(ss, x) && AllBelow(ds, y) && Ahead(bs, ss + {x}, ds + {y}, columns)
    ensures x > y ==> Ahead(bs, ss, ds + {y}, columns) && x !in columns
    ensures x == y ==> Ahead(bs, ss, ds, columns) && x in columns && y in bs
    ensures x < y ==> Ahead(bs, ss + {x}, ds, columns) && y !in bs
  {
    assert x in ss + {x} && y in ds + {y};
  }

  lemma ConvertsOne(job: Job, ts: set<nat>, t: nat, b: Buffer)
    requires t in b && t !in ts
    ensures Converts(job, ts, b[t := Column(job, b[t], t, true)]) == Converts(job, ts + {t}, b)
  {
  }

  /** The merge converts every destination column and leaves out exactly the types only the source has. */
  lemma {:induction false} MergedColumns(job: Job, src: seq<nat>, m: nat, dst: seq<nat>, n: nat, b: Buffer,
                                         dead: seq<nat>, columns: set<nat>)
    requires Sorted(src) && Sorted(dst) && m <= |src| && n <= |dst| && (m > 0 <==> n > 0)
    requires m > 0 ==> src[0] == dst[0]
    requires Elems(dst[..n]) <= b.Keys && Ahead(job.bs, Elems(src[..m]), Elems(dst[..n]), columns)
    ensures Merged(job, src, m, dst, n, b, dead) ==
      (Converts(job, Elems(dst[..n]), b), dead + SourceOnly(src, m, columns))
    decreases m + n
  {
    if n == 0 {
      assert Converts(job, {}, b) == b && dst[..0] == [] && dead + [] == dead;
    } else {
      ElemsStep(src, m);
      ElemsStep(dst, n);
      var x, t := src[m - 1], dst[n - 1];
      var rest := Elems(dst[..n - 1]);
      AheadStep(job.bs, Elems(src[..m - 1]), x, rest, t, columns);
      if x > t {
        MergedColumns(job, src, m - 1, dst, n, b, dead + [m - 1], columns);
        Joined(dead, m - 1, SourceOnly(src, m - 1, columns));
      } else {
        var b1: Buffer := b[t := Column(job, b[t], t, true)];
        ConvertsOne(job, rest, t, b);
        MergedColumns(job, src, if x == t then m - 1 else m, dst, n - 1, b1, dead, columns);
        if x == t {
          assert SourceOnly(src, m, columns) == SourceOnly(src, m - 1, columns);
        } else {
          assert Column(job, b[t], t, false) == Column(job, b[t], t, true);
        }
      }
    }
  }

  lemma Joined(s: seq<nat>, x: nat, r: seq<nat>)
    ensures s + [x] + r == s + ([x] + r)
  {
  }

  /** convert: the merge over both type lists from the back. A column in both is copied, a column only in the
      destination is cleared, and the types only in the source are left for destruction. */
  method Convert(job: Job, src: seq<nat>, dst: seq<nat>, bd: Buffer)
    returns (b1: Buffer, sourceTypesToDealloc: seq<nat>)
    requires |src| > 0 && |dst| > 0
    requires forall i :: 0 <= i < |dst| ==> if i == 0 then dst[i] == src[0] else dst[i] > src[0]
    requires forall i :: 0 <= i < |src| ==> src[i] in job.bs
    requires forall i :: 0 <= i < |dst| ==> dst[i] in bd
    ensures (b1, sourceTypesToDealloc) == Merged(job, src, |src|, dst, |dst|, bd, [])
  {
    var srcI, dstI := |src| - 1, |dst| - 1;
    b1, sourceTypesToDealloc := bd, [];
    while dstI >= 0
      invariant -1 <= srcI < |src| && -1 <= dstI < |dst| && (dstI >= 0 ==> srcI >= 0) && b1.Keys == bd.Keys
      invariant Merged(job, src, srcI + 1, dst, dstI + 1, b1, sourceTypesToDealloc) ==
        Merged(job, src, |src|, dst, |dst|, bd, [])
      decreases srcI + dstI
    {
      var srcType, dstType := src[srcI], dst[dstI];
      if srcType > dstType {
        sourceTypesToDealloc := sourceTypesToDealloc + [srcI];
        srcI := srcI - 1;
      } else if srcType == dstType {
        b1 := b1[dstType := ConvertColumn(b1[dstType], job.bs[srcType], job.from, job.to, job.n)];
        srcI, dstI := srcI - 1, dstI - 1;
      } else {
        b1 := b1[dstType := ConvertColumn(b1[dstType], [], job.from, job.to, job.n)];
        dstI := dstI - 1;
      }
    }
  }

  // What convert means for whole archetypes.

  lemma ColumnTypes(kind: Kind)
    requires KindOk(kind)
    ensures kind.firstTag <= |kind.types| && Sorted(kind.types[..kind.firstTag])
    ensures Elems(kind.types[..kind.firstTag]) == Stored(kind.types)
  {
    var types := kind.types[..kind.firstTag];
    InElems(types);
    forall t ensures t in types <==> t in Stored(kind.types) {
      if t in kind.types {
        var i :| 0 <= i < |kind.types| && kind.types[i] == t;
        assert i < kind.firstTag ==> types[i] == t;
      }
    }
  }

  /** The types of a the store disposes of that b lacks. */
  function LeftBehind(a: seq<nat>, b: seq<nat>): set<nat> {
    set t | t in Disposed(a) && t !in b
  }

  lemma ConvertsAll(job: Job, b: Buffer)
    ensures Converts(job, b.Keys, b) == ConvertRows(b, job.bs, job.from, job.to, job.n)
  {
  }

  /** convert turns the destination rows into the converted source rows. */
  lemma ConvertMeans(ks: Kind, kd: Kind, bs: Buffer, bd: Buffer, from: nat, to: nat, n: nat)
    requires KindOk(ks) && KindOk(kd) && IsBuffer(bs, ks) && IsBuffer(bd, kd)
    ensures ks.firstTag <= |ks.types| && kd.firstTag <= |kd.types|
    ensures var src, dst := ks.types[..ks.firstTag], kd.types[..kd.firstTag];
      Merged(Job(bs, from, to, n), src, |src|, dst, |dst|, bd, []) ==
      (ConvertRows(bd, bs, from, to, n), SourceOnly(src, |src|, Stored(kd.types)))
  {
    var src, dst := ks.types[..ks.firstTag], kd.types[..kd.firstTag];
    ColumnTypes(ks);
    ColumnTypes(kd);
    MergedAll(Job(bs, from, to, n), src, dst, bd);
    ConvertsAll(Job(bs, from, to, n), bd);
  }

  lemma MergedAll(job: Job, src: seq<nat>, dst: seq<nat>, b: Buffer)
    requires Sorted(src) && Sorted(dst) && |src| > 0 && |dst| > 0 && src[0] == dst[0]
    requires Elems(src) == job.bs.Keys && Elems(dst) == b.Keys
    ensures Merged(job, src, |src|, dst, |dst|, b, []) == (Converts(job, b.Keys, b), SourceOnly(src, |src|, b.Keys))
  {
    hide Merged, SourceOnly, Converts;
    assert src[..|src|] == src && dst[..|dst|] == dst;
    MergedColumns(job, src, |src|, dst, |dst|, b, [], b.Keys);
    assert [] + SourceOnly(src, |src|, b.Keys) == SourceOnly(src, |src|, b.Keys);
  }

  /** The list of source-only types: descending, and complete. */
  lemma {:induction false} SourceOnlyList(src: seq<nat>, m: nat, columns: set<nat>)
    requires m <= |src|
    ensures var s := SourceOnly(src, m, columns);
      && (forall i :: i in s <==> 0 <= i < m && src[i] !in columns)
      && (forall j, k :: 0 <= j < k < |s| ==> s[j] > s[k])
  {
    if m > 0 {
      SourceOnlyList(src, m - 1, columns);
      var rest := SourceOnly(src, m - 1, columns);
      assert forall k :: 0 <= k < |rest| ==> rest[k] in rest;
    }
  }

  // Destructor calls.

  /** A destructor call on an entity's component. */
  datatype Destruction = Destruction(owner: Handle, component: nat)

  function Destructions(hs: set<Handle>, ts: set<nat>): set<Destruction> {
    set h, t | h in hs && t in ts :: Destruction(h, t)
  }

  lemma DisjointSum<T>(a: set<T>, b: set<T>)
    requires a !! b
    ensures multiset(a + b) == multiset(a) + multiset(b)
  {
  }

  /** The rows from start on are those of the handles hs. */
  ghost predicate Owned(b: Buffer, start: nat, hs: seq<Handle>) {
    && (forall i: nat :: i < |hs| ==> OwnerAt(b, start + i) == Reference(hs[i]))
    && (forall i, j :: 0 <= i < j < |hs| ==> hs[i] != hs[j])
  }

  function HandleSet(hs: seq<Handle>): set<Handle> {
    set h | h in hs
  }

  lemma DestroyOne(hs: seq<Handle>, i: nat, t: nat)
    requires i < |hs| && forall j, k :: 0 <= j < k < |hs| ==> hs[j] != hs[k]
    ensures multiset(Destructions(HandleSet(hs[..i + 1]), {t})) ==
      multiset(Destructions(HandleSet(hs[..i]), {t})) + multiset{Destruction(hs[i], t)}
  {
    assert hs[..i + 1] == hs[..i] + [hs[i]];
    var before, one := Destructions(HandleSet(hs[..i]), {t}), {Destruction(hs[i], t)};
    assert Destructions(HandleSet(hs[..i + 1]), {t}) == before + one;
    DisjointSum(before, one);
  }

  /** One destructor call for each row of a column. */
  method DestroyColumn(b: Buffer, t: nat, start: nat, n: nat, calls: multiset<Destruction>, ghost hs: seq<Handle>)
    returns (calls1: multiset<Destruction>)
    requires |hs| == n && Owned(b, start, hs)
    ensures calls1 == calls + multiset(Destructions(HandleSet(hs), {t}))
  {
    calls1 := calls;
    for i := 0 to n
      invariant calls1 == calls + multiset(Destructions(HandleSet(hs[..i]), {t}))
    {
      DestroyOne(hs, i, t);
      assert OwnerAt(b, start + i) == Reference(hs[i]);
      calls1 := calls1 + multiset{Destruction(OwnerAt(b, start + i).handle, t)};
    }
    assert hs[..n] == hs;
  }

  lemma DestroyMore(hs: set<Handle>, ts: set<nat>, t: nat)
    requires t !in ts
    ensures multiset(Destructions(hs, ts + {t})) == multiset(Destructions(hs, ts)) + multiset(Destructions(hs, {t}))
  {
    assert Destructions(hs, ts + {t}) == Destructions(hs, ts) + Destructions(hs, {t});
    DisjointSum(Destructions(hs, ts), Destructions(hs, {t}));
  }

  /** The types at the given indices. */
  function TypesAt(types: seq<nat>, indices: seq<nat>, n: nat): set<nat> {
    set k | 0 <= k < n <= |indices| && indices[k] < |types| :: types[indices[k]]
  }

  lemma TypesAtStep(types: seq<nat>, indices: seq<nat>, n: nat)
    requires Sorted(types) && n < |indices| && indices[n] < |types|
    requires forall j :: 0 <= j < n ==> indices[j] != indices[n]
    ensures TypesAt(types, indices, n + 1) == TypesAt(types, indices, n) + {types[indices[n]]}
    ensures types[indices[n]] !in TypesAt(types, indices, n)
  {
  }

  lemma DisposedRun(kind: Kind, done: set<nat>)
    requires KindOk(kind)
    requires forall t :: t in done <==> exists j :: kind.firstManaged <= j < kind.firstTag && kind.types[j] == t
    ensures done == Disposed(kind.types)
  {
    forall t ensures t in done <==> t in Disposed(kind.types) {
      if t in Disposed(kind.types) || t in done {
        var j :| 0 <= j < |kind.types| && kind.types[j] == t;
        DisposedAt(kind.types, kind.firstManaged, kind.firstTag, kind.firstShared, j);
      }
    }
  }

  /** deallocateManagedComponents: one destructor call for each row and each type disposed of. */
  method DestroyManaged(kind: Kind, b: Buffer, start: nat, n: nat, calls: multiset<Destruction>, ghost hs: seq<Handle>)
    returns (calls1: multiset<Destruction>)
    requires KindOk(kind) && |hs| == n && Owned(b, start, hs)
    ensures calls1 == calls + multiset(Destructions(HandleSet(hs), Disposed(kind.types)))
  {
    calls1 := calls;
    ghost var done := {};
    assert Destructions(HandleSet(hs), done) == {};
    hide Destructions, HandleSet, Owned, Legal, Disposed;
    for i := kind.firstManaged to kind.firstTag
      invariant calls1 == calls + multiset(Destructions(HandleSet(hs), done))
      invariant forall t :: t in done <==> exists j :: kind.firstManaged <= j < i && kind.types[j] == t
    {
      calls1 := DestroyColumn(b, kind.types[i], start, n, calls1, hs);
      DestroyMore(HandleSet(hs), done, kind.types[i]);
      done := done + {kind.types[i]};
    }
    DisposedRun(kind, done);
  }

  /** What is destroyed when the loop stops at entry i of the list of source-only types. */
  lemma DisposedDone(ks: Kind, columns: set<nat>, dead: seq<nat>, i: nat)
    requires KindOk(ks) && i <= |dead| && dead == SourceOnly(ks.types[..ks.firstTag], ks.firstTag, columns)
    requires forall k :: 0 <= k < i ==> dead[k] >= ks.firstManaged
    requires i < |dead| ==> dead[i] < ks.firstManaged
    ensures TypesAt(ks.types, dead, i) == Disposed(ks.types) - columns
  {
    SourceOnlyList(ks.types[..ks.firstTag], ks.firstTag, columns);
    forall t | t in TypesAt(ks.types, dead, i) ensures t in Disposed(ks.types) && t !in columns {
      var k :| 0 <= k < i && dead[k] < |ks.types| && ks.types[dead[k]] == t;
      DoneDisposed(ks, columns, dead[k]) by { assert dead[k] in dead; }
    }
    forall t | t in Disposed(ks.types) && t !in columns ensures t in TypesAt(ks.types, dead, i) {
      var j := DisposedSourceOnly(ks, columns, t);
      assert j in dead;
    }
  }

  lemma DoneDisposed(ks: Kind, columns: set<nat>, j: nat)
    requires KindOk(ks) && ks.firstManaged <= j < ks.firstTag && ks.types[..ks.firstTag][j] !in columns
    ensures ks.types[j] in Disposed(ks.types) && ks.types[j] !in columns
  {
    DisposedAt(ks.types, ks.firstManaged, ks.firstTag, ks.firstShared, j);
  }

  lemma DisposedSourceOnly(ks: Kind, columns: set<nat>, t: nat) returns (j: nat)
    requires KindOk(ks) && t in Disposed(ks.types) && t !in columns
    ensures ks.firstManaged <= j < ks.firstTag && ks.types[..ks.firstTag][j] == ks.types[j] == t
    ensures ks.types[..ks.firstTag][j] !in columns
  {
    j :| 0 <= j < |ks.types| && ks.types[j] == t;
    DisposedAt(ks.types, ks.firstManaged, ks.firstTag, ks.firstShared, j);
  }

  /** One more type of the list is destroyed. */
  lemma DeadStep(ks: Kind, columns: set<nat>, dead: seq<nat>, i: nat, hs: set<Handle>)
    requires KindOk(ks) && i < |dead| && dead == SourceOnly(ks.types[..ks.firstTag], ks.firstTag, columns)
    ensures dead[i] < |ks.types|
    ensures multiset(Destructions(hs, TypesAt(ks.types, dead, i + 1))) ==
      multiset(Destructions(hs, TypesAt(ks.types, dead, i))) + multiset(Destructions(hs, {ks.types[dead[i]]}))
  {
    SourceOnlyList(ks.types[..ks.firstTag], ks.firstTag, columns);
    assert dead[i] in dead;
    TypesAtStep(ks.types, dead, i);
    DestroyMore(hs, TypesAt(ks.types, dead, i), ks.types[dead[i]]);
  }

  lemma ManagedFrom(ks: Kind)
    requires KindOk(ks)
    ensures 1 <= ks.firstManaged <= ks.firstTag <= |ks.types|
  {
  }

  lemma NothingYet(hs: set<Handle>, types: seq<nat>, dead: seq<nat>)
    ensures TypesAt(types, dead, 0) == {} && multiset(Destructions(hs, TypesAt(types, dead, 0))) == multiset{}
  {
    assert Destructions(hs, {}) == {};
  }

  /** The destruction at the end of convert: the types disposed of among those only the source has. The list ends
      with a sentinel below all of them. */
  method DestroySourceOnly(ks: Kind, ghost columns: set<nat>, dead: seq<nat>, b: Buffer, start: nat, n: nat,
                           calls: multiset<Destruction>, ghost hs: seq<Handle>)
    returns (calls1: multiset<Destruction>)
    requires KindOk(ks) && |hs| == n && Owned(b, start, hs)
    requires dead == SourceOnly(ks.types[..ks.firstTag], ks.firstTag, columns)
    ensures calls1 == calls + multiset(Destructions(HandleSet(hs), Disposed(ks.types) - columns))
  {
    hide *;
    NothingYet(HandleSet(hs), ks.types, dead);
    ManagedFrom(ks);
    calls1 := calls;
    var sourceTypesToDealloc := dead + [0];
    var iDealloc := 0;
    while sourceTypesToDealloc[iDealloc] >= ks.firstManaged
      invariant 0 <= iDealloc <= |dead| && sourceTypesToDealloc == dead + [0]
      invariant forall k :: 0 <= k < iDealloc ==> dead[k] >= ks.firstManaged
      invariant calls1 == calls + multiset(Destructions(HandleSet(hs), TypesAt(ks.types, dead, iDealloc)))
      decreases |dead| - iDealloc
    {
      var srcI := sourceTypesToDealloc[iDealloc];
      DeadStep(ks, columns, dead, iDealloc, HandleSet(hs));
      calls1 := DestroyColumn(b, ks.types[srcI], start, n, calls1, hs);
      iDealloc := iDealloc + 1;
    }
    DisposedDone(ks, columns, dead, iDealloc);
  }

  function FillColumn(d: seq<Value>, v: Value, start: nat, n: nat): (r: seq<Value>)
    ensures |r| == |d| && forall i :: 0 <= i < |d| ==> r[i] == if start <= i < start + n then v else d[i]
  {
    seq(|d|, i requires 0 <= i < |d| => if start <= i < start + n then v else d[i])
  }

  lemma FillInitial(d: seq<Value>, t: nat, start: nat, hs: seq<Handle>)
    requires t != EntityType
    ensures FillColumn(d, if IsManaged(t) then Built else Data(0), start, |hs|) == InitialColumn(d, t, start, hs)
  {
    var v := if IsManaged(t) then Built else Data(0);
    forall i | 0 <= i < |d| ensures FillColumn(d, v, start, |hs|)[i] == InitialColumn(d, t, start, hs)[i] {
      assert InitialColumn(d, t, start, hs)[i] == if start <= i < start + |hs| then Initial(t, hs[i - start]) else d[i];
      assert FillColumn(d, v, start, |hs|)[i] == if start <= i < start + |hs| then v else d[i];
    }
  }

  /** b after the columns of the types 1, ..., t - 1 were initialized. */
  function InitializedUpto(b: Buffer, types: seq<nat>, t: nat, start: nat, n: nat): Buffer
    requires 0 < t <= |types|
  {
    if t == 1 then b
    else
      var b1, x := InitializedUpto(b, types, t - 1, start, n), types[t - 1];
      if x in b1 then b1[x := FillColumn(b1[x], if IsManaged(x) then Built else Data(0), start, n)] else b1
  }

  /** The columns of the types ts initialized. */
  function Initialize(b: Buffer, ts: set<nat>, start: nat, hs: seq<Handle>): Buffer {
    map x | x in b :: if x in ts && x != EntityType then InitialColumn(b[x], x, start, hs) else b[x]
  }

  lemma InitializeOne(b: Buffer, ts: set<nat>, x: nat, start: nat, hs: seq<Handle>)
    requires x !in ts && x != EntityType
    ensures var b1 := Initialize(b, ts, start, hs);
      Initialize(b, ts + {x}, start, hs) ==
        if x in b1 then b1[x := FillColumn(b1[x], if IsManaged(x) then Built else Data(0), start, |hs|)] else b1
  {
    if x in b { FillInitial(b[x], x, start, hs); }
    hide InitialColumn, FillColumn;
  }

  lemma NextType(types: seq<nat>, t: nat)
    requires Sorted(types) && 0 < t < |types| && types[0] == EntityType
    ensures Elems(types[..t + 1]) == Elems(types[..t]) + {types[t]}
    ensures types[t] !in Elems(types[..t]) && types[t] != EntityType
  {
    ElemsStep(types, t + 1);
    InElems(types[..t]);
  }

  lemma {:induction false} InitializedColumns(b: Buffer, types: seq<nat>, t: nat, start: nat, hs: seq<Handle>)
    requires Sorted(types) && 0 < t <= |types| && types[0] == EntityType
    ensures InitializedUpto(b, types, t, start, |hs|) == Initialize(b, Elems(types[..t]), start, hs)
  {
    if t == 1 {
      ElemsStep(types, 1);
      assert types[..0] == [];
    } else {
      hide Sorted, Elems, Initialize, FillColumn;
      InitializedColumns(b, types, t - 1, start, hs);
      NextType(types, t - 1);
      InitializeOne(b, Elems(types[..t - 1]), types[t - 1], start, hs);
    }
  }

  lemma InitializedAll(kind: Kind, b: Buffer, start: nat, hs: seq<Handle>)
    requires KindOk(kind) && IsBuffer(b, kind)
    ensures 0 < kind.firstTag <= |kind.types|
    ensures InitializedUpto(b, kind.types, kind.firstTag, start, |hs|) ==
      map t | t in b :: if t == EntityType then b[t] else InitialColumn(b[t], t, start, hs)
  {
    InitializedColumns(b, kind.types, kind.firstTag, start, hs);
    ColumnTypes(kind);
  }

  /** initializeComponents, for rows whose handles are written already: other columns are cleared, managed ones
      default-constructed. */
  method InitializeComponents(kind: Kind, b: Buffer, start: nat, ghost hs: seq<Handle>, n: nat) returns (b1: Buffer)
    requires KindOk(kind) && IsBuffer(b, kind) && n == |hs|
    ensures b1 == map t | t in b :: if t == EntityType then b[t] else InitialColumn(b[t], t, start, hs)
  {
    InitializedAll(kind, b, start, hs);
    hide KindOk, IsBuffer, FillColumn, InitialColumn;
    b1 := b;
    for t := 1 to kind.firstTag
      invariant b1 == InitializedUpto(b, kind.types, t, start, n)
    {
      var type_ := kind.types[t];
      if type_ in b1 {
        b1 := b1[type_ := FillColumn(b1[type_], if IsManaged(type_) then Built else Data(0), start, n)];
      }
    }
  }
}
