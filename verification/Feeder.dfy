/** The feeder: samples of any number of rows are cut and joined into batches of one size. */
module Feeder {
  import opened Arith
  import opened Buffers
  import opened Sequences
  import opened Tensors

  /** One tensor a column. All columns of a sample have the same number of rows. */
  type Sample<E> = seq<Tensor<E>>

  /** The sample has rows rows, and in column c rows of the shape trails[c]. */
  ghost predicate Fits<E>(s: Sample<E>, trails: seq<seq<nat>>, rows: nat) {
    && |s| == |trails|
    && forall c {:trigger s[c]} {:trigger trails[c]} :: 0 <= c < |s| ==>
         Holds(s[c]) && s[c].shape == [rows] + trails[c]
  }

  /** The number of rows, read off the first column as every column is a primary one. */
  function RowCount<E>(s: Sample<E>): nat {
    if |s| > 0 && |s[0].shape| > 0 then s[0].shape[0] else 0
  }

  ghost predicate AllFit<E>(samples: seq<Sample<E>>, trails: seq<seq<nat>>) {
    forall i {:trigger samples[i]} :: 0 <= i < |samples| ==>
      RowCount(samples[i]) > 0 && Fits(samples[i], trails, RowCount(samples[i]))
  }

  /** All rows of column c of the samples, one after the other. */
  ghost function Column<E>(samples: seq<Sample<E>>, trails: seq<seq<nat>>, c: nat): (d: seq<E>)
    requires AllFit(samples, trails) && c < |trails|
    decreases |samples|
  {
    if samples == [] then []
    else Column(samples[..|samples| - 1], trails, c) + Data(samples[|samples| - 1][c])
  }

  ghost function TotalRows<E>(samples: seq<Sample<E>>): nat {
    if samples == [] then 0 else TotalRows(samples[..|samples| - 1]) + RowCount(samples[|samples| - 1])
  }

  lemma {:induction false} ColumnAppend<E>(samples: seq<Sample<E>>, s: Sample<E>, trails: seq<seq<nat>>, c: nat)
    requires AllFit(samples, trails) && RowCount(s) > 0 && Fits(s, trails, RowCount(s)) && c < |trails|
    ensures AllFit(samples + [s], trails)
    ensures Column(samples + [s], trails, c) == Column(samples, trails, c) + Data(s[c])
    ensures TotalRows(samples + [s]) == TotalRows(samples) + RowCount(s)
  {
    assert (samples + [s])[..|samples|] == samples;
  }

  lemma {:induction false} ColumnHead<E>(samples: seq<Sample<E>>, trails: seq<seq<nat>>, c: nat)
    requires AllFit(samples, trails) && samples != [] && c < |trails|
    ensures AllFit(samples[1..], trails)
    ensures Column(samples, trails, c) == Data(samples[0][c]) + Column(samples[1..], trails, c)
    ensures TotalRows(samples) == RowCount(samples[0]) + TotalRows(samples[1..])
    decreases |samples|
  {
    hide Data, RowCount;
    var k := |samples| - 1;
    if k == 0 {
      assert samples[..0] == [] && samples[1..] == [];
    } else {
      var rest := samples[1..];
      ColumnHead(samples[..k], trails, c);
      assert rest[..k - 1] == samples[..k][1..] && rest[k - 1] == samples[k];
      Append3(Data(samples[0][c]), Column(rest[..k - 1], trails, c), Data(samples[k][c]));
    }
  }

  /** A column holds as many elements as its rows take. */
  lemma {:induction false} ColumnLength<E>(samples: seq<Sample<E>>, trails: seq<seq<nat>>, c: nat)
    requires AllFit(samples, trails) && c < |trails|
    ensures |Column(samples, trails, c)| == Base(TotalRows(samples), Product(trails[c]))
    decreases |samples|
  {
    if samples == [] {
    } else {
      var k := |samples| - 1;
      ColumnLength(samples[..k], trails, c);
      var t := samples[k][c];
      assert t.shape == [RowCount(samples[k])] + trails[c] && t.shape[1..] == trails[c];
      LeadingDim(t.shape, 0);
      BaseSum(TotalRows(samples[..k]), RowCount(samples[k]), Product(trails[c]));
    }
  }

  /** Cut the first rows off a tensor: the blob is kept and only the shape shrinks; the rest is copied out. */
  method SplitTensor<E>(raw: Tensor<E>, splitSize: nat, ghost trail: seq<nat>) returns (first: Tensor<E>,
                        second: Tensor<E>)
    requires Holds(raw) && raw.shape[1..] == trail && 0 < splitSize < raw.shape[0]
    ensures Holds(first) && Holds(second)
    ensures first.shape == [splitSize] + trail && second.shape == [raw.shape[0] - splitSize] + trail
    ensures Data(first) + Data(second) == Data(raw)
  {
    var firstTop, secondBottom := splitSize, splitSize + 1;
    var newShape := raw.shape[0 := raw.shape[0] - secondBottom + 1];
    var size := Product(raw.shape);
    var from := ((secondBottom - 1) * size) / raw.shape[0];
    LeadingDim(raw.shape, splitSize);
    LeadingDim(raw.shape, newShape[0]);
    var w := Product(raw.shape[1..]);
    BaseSum(splitSize, newShape[0], w);
    assert from == Base(splitSize, w) by {
      SplitPoint(splitSize, raw.shape[0], w);
    }
    second := Tensor(newShape, raw.blob[from..from + Product(newShape)]);
    first := Tensor(raw.shape[0 := firstTop], raw.blob);
    assert second.blob[..|second.blob|] == second.blob;
  }

  lemma {:induction false} SplitPoint(k: nat, rows: nat, w: nat)
    requires rows > 0
    ensures (k * Base(rows, w)) / rows == Base(k, w)
  {
    assert k * (rows * w) == (k * w) * rows;
    DivModUnique(k * Base(rows, w), rows, k * w, 0);
  }

  /** Cut the first rows off a sample without auxiliary tensors. */
  method Split<E>(raw: Sample<E>, splitSize: nat, ghost trails: seq<seq<nat>>) returns (first: Sample<E>,
                  second: Sample<E>)
    requires |trails| > 0 && Fits(raw, trails, RowCount(raw)) && 0 < splitSize < RowCount(raw)
    ensures RowCount(first) == splitSize && Fits(first, trails, splitSize)
    ensures RowCount(second) == RowCount(raw) - splitSize && Fits(second, trails, RowCount(raw) - splitSize)
    ensures forall c {:trigger raw[c]} :: 0 <= c < |trails| ==> Data(first[c]) + Data(second[c]) == Data(raw[c])
  {
    hide Product;
    first, second := [], [];
    for i := 0 to |raw|
      invariant |first| == |second| == i
      invariant forall c {:trigger first[c]} {:trigger second[c]} {:trigger raw[c]} {:trigger trails[c]} ::
        0 <= c < i ==>
        && Holds(first[c]) && first[c].shape == [splitSize] + trails[c]
        && Holds(second[c]) && second[c].shape == [RowCount(raw) - splitSize] + trails[c]
        && Data(first[c]) + Data(second[c]) == Data(raw[c])
    {
      assert raw[i].shape == [RowCount(raw)] + trails[i] && raw[i].shape[1..] == trails[i];
      var a, b := SplitTensor(raw[i], splitSize, trails[i]);
      first, second := first + [a], second + [b];
    }
  }

  lemma {:induction false} PrefixFits<E>(samples: seq<Sample<E>>, trails: seq<seq<nat>>, k: nat, c: nat)
    requires AllFit(samples, trails) && k < |samples| && c < |trails|
    ensures AllFit(samples[..k], trails) && AllFit(samples[..k + 1], trails)
    ensures Column(samples[..k + 1], trails, c) == Column(samples[..k], trails, c) + Data(samples[k][c])
    ensures TotalRows(samples[..k + 1]) == TotalRows(samples[..k]) + RowCount(samples[k])
  {
    assert samples[..k + 1] == samples[..k] + [samples[k]];
    ColumnAppend(samples[..k], samples[k], trails, c);
  }

  lemma {:induction false} ColumnPrefix<E>(samples: seq<Sample<E>>, trails: seq<seq<nat>>, k: nat, c: nat)
    requires AllFit(samples, trails) && k <= |samples| && c < |trails|
    ensures AllFit(samples[..k], trails)
    ensures Column(samples[..k], trails, c) <= Column(samples, trails, c)
    decreases |samples| - k
  {
    if k < |samples| {
      PrefixFits(samples, trails, k, c);
      ColumnPrefix(samples, trails, k + 1, c);
    } else {
      assert samples[..k] == samples;
    }
  }

  /** Where sample k's piece of the column starts. */
  ghost function PieceStart<E>(samples: seq<Sample<E>>, trails: seq<seq<nat>>, c: nat, k: nat): nat
    requires AllFit(samples, trails) && c < |trails| && k <= |samples|
  {
    ColumnPrefix(samples, trails, k, c);
    |Column(samples[..k], trails, c)|
  }

  /** Join one column of the samples: first its shape and the offsets of the pieces, then the pieces themselves. */
  method MergeColumn<E>(samples: seq<Sample<E>>, ghost trails: seq<seq<nat>>, col: nat,
                        zero: E) returns (result: Tensor<E>)
    requires samples != [] && AllFit(samples, trails) && col < |trails|
    ensures Holds(result) && result.shape == [TotalRows(samples)] + trails[col]
    ensures Data(result) == Column(samples, trails, col)
  {
    hide Product, Column, TotalRows;
    var row := 0;
    var shape := samples[0][col].shape;
    var offsets := [0];
    var stride := Product(samples[0][col].shape);
    ColumnStart(samples, trails, col);
    row := 1;
    while row < |samples|
      invariant 1 <= row <= |samples| && AllFit(samples[..row], trails)
      invariant shape == [TotalRows(samples[..row])] + trails[col]
      invariant |offsets| == row && stride == PieceStart(samples, trails, col, row)
      invariant forall k {:trigger offsets[k]} :: 0 <= k < row ==> offsets[k] == PieceStart(samples, trails, col, k)
    {
      var shapeTmp := samples[row][col].shape;
      assert |shapeTmp| == |shape| && forall i :: 1 <= i < |shapeTmp| ==> shape[i] == shapeTmp[i];
      PrefixFits(samples, trails, row, col);
      DataLength(samples[row], trails, col);
      shape := shape[0 := shape[0] + shapeTmp[0]];
      offsets := offsets + [stride];
      stride := stride + Product(shapeTmp);
      row := row + 1;
    }
    assert samples[..|samples|] == samples;
    ColumnLength(samples, trails, col);
    assert shape[1..] == trails[col];
    LeadingDim(shape, 0);
    var blob := seq(Product(shape), _ => zero);
    for r := 0 to |samples|
      invariant AllFit(samples[..r], trails) && |blob| == |Column(samples, trails, col)|
      invariant |Column(samples[..r], trails, col)| <= |blob|
      invariant blob[..|Column(samples[..r], trails, col)|] == Column(samples[..r], trails, col)
    {
      PrefixFits(samples, trails, r, col);
      ColumnPrefix(samples, trails, r + 1, col);
      var src := samples[r][col];
      blob := blob[..offsets[r]] + src.blob[..Product(src.shape)] + blob[offsets[r] + Product(src.shape)..];
    }
    result := Tensor(shape, blob);
    assert blob[..|blob|] == blob;
  }

  /** Join every column of the samples. */
  method BatchTensor2Batch<E>(samples: seq<Sample<E>>, ghost trails: seq<seq<nat>>, zero: E) returns (batch: Sample<E>)
    requires samples != [] && AllFit(samples, trails) && |trails| > 0
    ensures Fits(batch, trails, TotalRows(samples)) && RowCount(batch) == TotalRows(samples)
    ensures forall c {:trigger batch[c]} :: 0 <= c < |trails| ==> Data(batch[c]) == Column(samples, trails, c)
  {
    hide Product, Column, TotalRows;
    batch := [];
    for col := 0 to |samples[0]|
      invariant |batch| == col
      invariant forall c {:trigger batch[c]} {:trigger trails[c]} :: 0 <= c < col ==>
        && Holds(batch[c]) && batch[c].shape == [TotalRows(samples)] + trails[c]
        && Data(batch[c]) == Column(samples, trails, c)
    {
      var result := MergeColumn(samples, trails, col, zero);
      batch := batch + [result];
    }
  }

  lemma {:induction false} DataLength<E>(s: Sample<E>, trails: seq<seq<nat>>, c: nat)
    requires Fits(s, trails, RowCount(s)) && c < |trails|
    ensures |Data(s[c])| == Product(s[c].shape)
  {
  }

  lemma {:induction false} ColumnStart<E>(samples: seq<Sample<E>>, trails: seq<seq<nat>>, c: nat)
    requires AllFit(samples, trails) && samples != [] && c < |trails|
    ensures AllFit(samples[..0], trails) && AllFit(samples[..1], trails)
    ensures Column(samples[..0], trails, c) == [] && |Column(samples[..1], trails, c)| == Product(samples[0][c].shape)
    ensures samples[0][c].shape == [TotalRows(samples[..1])] + trails[c]
  {
    assert samples[..1][..0] == [] == samples[..0];
  }

  /** All rows of column c that are in the three places. */
  ghost function Three<E>(batch: seq<Sample<E>>, cache: seq<Sample<E>>, unread: seq<Sample<E>>,
                          trails: seq<seq<nat>>, c: nat): seq<E>
    requires AllFit(batch, trails) && AllFit(cache, trails) && AllFit(unread, trails) && c < |trails|
  {
    Column(batch, trails, c) + Column(cache, trails, c) + Column(unread, trails, c)
  }

  ghost function ThreeRows<E>(batch: seq<Sample<E>>, cache: seq<Sample<E>>, unread: seq<Sample<E>>): nat {
    TotalRows(batch) + TotalRows(cache) + TotalRows(unread)
  }

  /** No row of the file is lost, repeated or moved: those emitted, cached and not yet read make it up in order. */
  ghost predicate Conserved<E>(trails: seq<seq<nat>>, file: seq<Sample<E>>, emitted: seq<Sample<E>>,
                               cache: seq<Sample<E>>, unread: seq<Sample<E>>) {
    && AllFit(file, trails) && AllFit(emitted, trails) && AllFit(cache, trails) && AllFit(unread, trails)
    && forall c: nat {:trigger Column(file, trails, c)} :: c < |trails| ==>
         Three(emitted, cache, unread, trails, c) == Column(file, trails, c)
  }

  /** The batch holds the first rows of those cached and unread before; the others are cached and unread now. */
  ghost predicate Leading<E>(trails: seq<seq<nat>>, batch: Sample<E>, cached: seq<Sample<E>>, left: seq<Sample<E>>,
                             cache: seq<Sample<E>>, unread: seq<Sample<E>>) {
    && AllFit(cached, trails) && AllFit(left, trails) && AllFit(cache, trails) && AllFit(unread, trails)
    && |batch| == |trails|
    && forall c: nat {:trigger batch[c]} :: c < |trails| ==>
         && Holds(batch[c])
         && Data(batch[c]) + Column(cache, trails, c) + Column(unread, trails, c)
         == Column(cached, trails, c) + Column(left, trails, c)
  }

  ghost predicate Full<E>(batches: seq<Sample<E>>, size: nat) {
    forall k {:trigger batches[k]} :: 0 <= k < |batches| ==> RowCount(batches[k]) == size
  }

  lemma {:induction false} OneColumn<E>(s: Sample<E>, trails: seq<seq<nat>>, c: nat)
    requires RowCount(s) > 0 && Fits(s, trails, RowCount(s)) && c < |trails|
    ensures AllFit([s], trails) && Column([s], trails, c) == Data(s[c]) && TotalRows([s]) == RowCount(s)
  {
    assert [s][..0] == [];
    assert Column([s], trails, c) == [] + Data(s[c]);
  }

  ghost predicate Moved<E>(trails: seq<seq<nat>>, batch: seq<Sample<E>>, cache: seq<Sample<E>>, unread: seq<Sample<E>>,
                           item: Sample<E>, unread': seq<Sample<E>>) {
    && AllFit(batch, trails) && AllFit(cache, trails) && AllFit(unread, trails)
    && RowCount(item) > 0 && Fits(item, trails, RowCount(item))
    && AllFit(batch + [item], trails) && AllFit<E>([], trails) && AllFit(unread', trails)
    && TotalRows(batch + [item]) == TotalRows(batch) + RowCount(item)
    && ThreeRows(batch + [item], [], unread') == ThreeRows(batch, cache, unread)
    && forall c: nat {:trigger Three(batch + [item], [], unread', trails, c)} :: c < |trails| ==>
         Three(batch + [item], [], unread', trails, c) == Three(batch, cache, unread, trails, c)
  }

  lemma {:induction false} TookCached<E>(trails: seq<seq<nat>>, batch: seq<Sample<E>>, item: Sample<E>,
                                         unread: seq<Sample<E>>)
    requires |trails| > 0 && AllFit(batch, trails) && AllFit([item], trails) && AllFit(unread, trails)
    ensures Moved(trails, batch, [item], unread, item, unread)
  {
    assert [item][0] == item;
    hide Column, TotalRows;
    ColumnAppend(batch, item, trails, 0);
    OneColumn(item, trails, 0);
    assert TotalRows<E>([]) == 0 by {
      NothingTaken(trails, [item], unread);
    }
    forall c: nat | c < |trails|
      ensures Three(batch + [item], [], unread, trails, c) == Three(batch, [item], unread, trails, c)
    {
      ColumnAppend(batch, item, trails, c);
      OneColumn(item, trails, c);
      EmptyColumn<E>(trails, c);
      assert Column(batch, trails, c) + Data(item[c]) + [] == Column(batch, trails, c) + Data(item[c]);
    }
  }

  lemma {:induction false} TookUnread<E>(trails: seq<seq<nat>>, batch: seq<Sample<E>>, unread: seq<Sample<E>>)
    requires |trails| > 0 && AllFit(batch, trails) && AllFit(unread, trails) && unread != []
    ensures Moved(trails, batch, [], unread, unread[0], unread[1..])
  {
    var item := unread[0];
    hide Column, TotalRows;
    ColumnAppend(batch, item, trails, 0);
    ColumnHead(unread, trails, 0);
    forall c: nat | c < |trails|
      ensures Three(batch + [item], [], unread[1..], trails, c) == Three(batch, [], unread, trails, c)
    {
      ColumnAppend(batch, item, trails, c);
      ColumnHead(unread, trails, c);
      EmptyColumn<E>(trails, c);
      Shift(Column(batch, trails, c), Data(item[c]), Column(unread[1..], trails, c));
    }
  }

  lemma {:induction false} Shift<E>(a: seq<E>, b: seq<E>, c: seq<E>)
    ensures (a + b) + [] + c == a + [] + (b + c)
  {
  }

  lemma {:induction false} EmptyColumn<E>(trails: seq<seq<nat>>, c: nat)
    requires c < |trails|
    ensures AllFit<E>([], trails) && Column<E>([], trails, c) == []
  {
  }

  /** The next sample comes from the cache if there is one, and else from the file; it becomes the batch's last. */
  lemma {:induction false} Took<E>(trails: seq<seq<nat>>, batch: seq<Sample<E>>, cache: seq<Sample<E>>,
                                   unread: seq<Sample<E>>)
    requires |trails| > 0 && AllFit(batch, trails) && AllFit(cache, trails) && AllFit(unread, trails)
    requires |cache| <= 1 && TotalRows(cache) + TotalRows(unread) > 0
    ensures cache == [] ==> unread != []
    ensures Moved(trails, batch, cache, unread, if cache != [] then cache[0] else unread[0],
                  if cache != [] then unread else unread[1..])
  {
    if cache != [] {
      assert cache == [cache[0]];
      TookCached(trails, batch, cache[0], unread);
    } else {
      TookUnread(trails, batch, unread);
    }
  }

  /** Cutting the batch's last sample moves its rest to the cache. */
  lemma {:induction false} Cut<E>(trails: seq<seq<nat>>, batch: seq<Sample<E>>, item: Sample<E>,
                                  first: Sample<E>, second: Sample<E>, unread: seq<Sample<E>>)
    requires |trails| > 0 && AllFit(batch, trails) && AllFit(unread, trails)
    requires RowCount(item) > 0 && Fits(item, trails, RowCount(item))
    requires RowCount(first) > 0 && Fits(first, trails, RowCount(first))
    requires RowCount(second) > 0 && Fits(second, trails, RowCount(second))
    requires RowCount(first) + RowCount(second) == RowCount(item)
    requires forall c {:trigger item[c]} :: 0 <= c < |trails| ==> Data(first[c]) + Data(second[c]) == Data(item[c])
    ensures AllFit(batch + [item], trails) && AllFit(batch + [first], trails)
    ensures AllFit([second], trails) && AllFit<E>([], trails)
    ensures TotalRows(batch + [first]) == TotalRows(batch) + RowCount(first)
    ensures ThreeRows(batch + [first], [second], unread) == ThreeRows(batch + [item], [], unread)
    ensures forall c: nat {:trigger Three(batch + [first], [second], unread, trails, c)} :: c < |trails| ==>
      Three(batch + [first], [second], unread, trails, c) == Three(batch + [item], [], unread, trails, c)
  {
    ColumnAppend(batch, item, trails, 0);
    ColumnAppend(batch, first, trails, 0);
    OneColumn(second, trails, 0);
    forall c: nat | c < |trails|
      ensures Three(batch + [first], [second], unread, trails, c) == Three(batch + [item], [], unread, trails, c)
    {
      ColumnAppend(batch, item, trails, c);
      ColumnAppend(batch, first, trails, c);
      OneColumn(second, trails, c);
      assert Data(first[c]) + Data(second[c]) == Data(item[c]);
      var before, pair := Column(batch, trails, c), Data(first[c]) + Data(second[c]);
      Append3(before, Data(first[c]), Data(second[c]));
      assert before + pair + [] == before + pair;
    }
  }

  /** One file's task: rows cached from a sample that was cut, and the samples not yet read. */
  class Task<E(0)> {
    var curr: nat
    var cache: seq<Sample<E>>
    /** What the record stream still holds. */
    var unread: seq<Sample<E>>
    const sampleCount: nat
    const batchSize: nat
    ghost const trails: seq<seq<nat>>
    /** All samples of the file. */
    ghost const file: seq<Sample<E>>
    /** The batches pushed so far. */
    ghost var emitted: seq<Sample<E>>

    ghost predicate Shaped()
      reads this
    {
      |trails| > 0 && batchSize > 0 && AllFit(cache, trails) && AllFit(unread, trails) && |cache| <= 1
    }

    ghost predicate Valid()
      reads this
    {
      && Shaped() && Full(emitted, batchSize)
      && Conserved(trails, file, emitted, cache, unread)
      && sampleCount == TotalRows(file)
      && curr == TotalRows(emitted) && curr + TotalRows(cache) + TotalRows(unread) == sampleCount
    }

    constructor (samples: seq<Sample<E>>, ghost trails: seq<seq<nat>>, sampleCount: nat, batchSize: nat)
      requires |trails| > 0 && batchSize > 0 && AllFit(samples, trails) && sampleCount == TotalRows(samples)
      ensures Valid() && emitted == [] && file == samples && this.batchSize == batchSize && this.trails == trails
    {
      curr, cache, unread, emitted := 0, [], samples, [];
      this.sampleCount, this.batchSize, this.trails, file := sampleCount, batchSize, trails, samples;
    }

    /** Take samples until the batch is full; the last one is cut if it has rows to spare. */
    method ReadBatchTensor() returns (batch: seq<Sample<E>>)
      requires Shaped() && batchSize <= TotalRows(cache) + TotalRows(unread)
      modifies `cache, `unread
      ensures Shaped() && batch != [] && AllFit(batch, trails) && TotalRows(batch) == batchSize
      ensures ThreeRows(batch, cache, unread) == old(TotalRows(cache) + TotalRows(unread))
      ensures forall c: nat {:trigger Three(batch, cache, unread, trails, c)} :: c < |trails| ==>
        Three(batch, cache, unread, trails, c) == old(Column(cache, trails, c) + Column(unread, trails, c))
    {
      hide Column, RowCount, Fits, Three, ThreeRows, TotalRows;
      batch := [];
      var remaining := batchSize;
      var item: Sample<E> := [];
      ghost var before := batch;
      NothingTaken(trails, cache, unread);
      while remaining > 0
        invariant Shaped() && AllFit(batch, trails) && TotalRows(batch) + remaining == batchSize
        invariant batch == [] ==> remaining > 0
        invariant ThreeRows(batch, cache, unread) == old(TotalRows(cache) + TotalRows(unread))
        invariant forall c: nat {:trigger Three(batch, cache, unread, trails, c)} :: c < |trails| ==>
          Three(batch, cache, unread, trails, c) == old(Column(cache, trails, c) + Column(unread, trails, c))
        decreases |cache| + |unread|
      {
        before := batch;
        RowsLeft(batch, cache, unread);
        Took(trails, batch, cache, unread);
        if cache != [] {
          item := cache[0];
          cache := cache[1..];
        } else {
          item := unread[0];
          unread := unread[1..];
        }
        var currBatchSize := RowCount(item);
        assert cache == [];
        if remaining < currBatchSize {
          break;
        } else {
          batch := batch + [item];
          remaining := remaining - currBatchSize;
        }
      }
      if remaining > 0 {
        var first, second := Split(item, remaining, trails);
        Cut(trails, before, item, first, second, unread);
        assert cache + [second] == [second];
        batch := batch + [first];
        cache := cache + [second];
      }
    }

    /** One batch, joined from the samples read for it. */
    method AssembleBatch(zero: E) returns (batch: Sample<E>)
      requires Shaped() && batchSize <= TotalRows(cache) + TotalRows(unread)
      modifies `cache, `unread
      ensures Shaped() && Fits(batch, trails, batchSize) && RowCount(batch) == batchSize
      ensures batchSize + TotalRows(cache) + TotalRows(unread) == old(TotalRows(cache) + TotalRows(unread))
      ensures Leading(trails, batch, old(cache), old(unread), cache, unread)
    {
      hide Column, TotalRows, RowCount, Product;
      var samples := ReadBatchTensor();
      batch := BatchTensor2Batch(samples, trails, zero);
      forall c: nat | c < |trails|
        ensures Holds(batch[c]) && Data(batch[c]) + Column(cache, trails, c) + Column(unread, trails, c)
             == Three(samples, cache, unread, trails, c)
      {
        assert Data(batch[c]) == Column(samples, trails, c);
      }
    }

    lemma FileFits()
      requires Valid()
      ensures AllFit(file, trails) && AllFit(emitted, trails) && AllFit(cache, trails) && AllFit(unread, trails)
    {
    }

    /** Push one batch, if the file still has a full one; put the task back if it still has rows. */
    method ProduceBatch(zero: E) returns (again: bool)
      requires Valid()
      modifies this
      ensures Valid()
      ensures if old(curr) + batchSize <= sampleCount then
                |emitted| == old(|emitted|) + 1 && emitted[..old(|emitted|)] == old(emitted)
                && curr == old(curr) + batchSize && (again <==> curr < sampleCount)
              else !again && emitted == old(emitted) && curr == old(curr)
    {
      hide Column, TotalRows, RowCount, Product, Data, Fits, Conserved, Full, Leading;
      again := false;
      if curr + batchSize <= sampleCount {
        FileFits();
        var batch := AssembleBatch(zero);
        Pushed(trails, file, emitted, old(cache), old(unread), batch, cache, unread, batchSize);
        emitted := emitted + [batch];
        curr := curr + batchSize;
        again := curr < sampleCount;
      }
    }

    /** The feeder's threads call ProduceBatch until the task is not put back. */
    method RunTask(zero: E)
      requires Valid() && emitted == []
      modifies this
      ensures Valid() && |emitted| == sampleCount / batchSize
    {
      FullBatches(emitted, trails, batchSize);
      var again := true;
      while again
        invariant Valid() && (again || sampleCount < curr + batchSize)
        decreases again, sampleCount - curr
      {
        again := ProduceBatch(zero);
      }
      FullBatches(emitted, trails, batchSize);
      DivModUnique(sampleCount, batchSize, |emitted|, sampleCount - curr);
    }
  }

  /** Batches of one size hold that many rows each. */
  lemma {:induction false} FullBatches<E>(batches: seq<Sample<E>>, trails: seq<seq<nat>>, size: nat)
    requires AllFit(batches, trails)
    requires forall k {:trigger batches[k]} :: 0 <= k < |batches| ==> RowCount(batches[k]) == size
    ensures TotalRows(batches) == |batches| * size
    decreases |batches|
  {
    if batches == [] {
    } else {
      FullBatches(batches[..|batches| - 1], trails, size);
      assert (|batches| - 1) * size + size == |batches| * size;
    }
  }

  lemma {:induction false} PieceBounds<E>(emitted: seq<Sample<E>>, trails: seq<seq<nat>>, size: nat, k: nat, c: nat)
    requires AllFit(emitted, trails) && Full(emitted, size) && k < |emitted| && c < |trails|
    ensures AllFit(emitted[..k], trails) && Holds(emitted[k][c]) && emitted[k][c].shape == [size] + trails[c]
    ensures |Column(emitted[..k], trails, c)| == Base(k * size, Product(trails[c]))
    ensures |Column(emitted[..k], trails, c) + Data(emitted[k][c])| == Base((k + 1) * size, Product(trails[c]))
    ensures Column(emitted[..k], trails, c) + Data(emitted[k][c]) <= Column(emitted, trails, c)
  {
    PrefixFits(emitted, trails, k, c);
    FullBatches(emitted[..k], trails, size);
    FullBatches(emitted[..k + 1], trails, size);
    ColumnLength(emitted[..k], trails, c);
    ColumnLength(emitted[..k + 1], trails, c);
    ColumnPrefix(emitted, trails, k + 1, c);
  }

  /** Batch k of a task is rows k * size up to (k + 1) * size of the file, in every column. */
  lemma {:induction false} BatchIsSlice<E(0)>(task: Task<E>, k: nat, c: nat)
    requires task.Valid() && k < |task.emitted| && c < |task.trails|
    ensures AllFit(task.file, task.trails) && |task.emitted[k]| == |task.trails|
    ensures var w := Product(task.trails[c]);
        var from, to := Base(k * task.batchSize, w), Base((k + 1) * task.batchSize, w);
            var all := Column(task.file, task.trails, c); var t := task.emitted[k][c];
            && Holds(t) && t.shape == [task.batchSize] + task.trails[c]
            && from <= to <= |all| && Data(t) == all[from..to]
  {
    var emitted, trails := task.emitted, task.trails;
    var all := Column(task.file, trails, c);
    PieceBounds(emitted, trails, task.batchSize, k, c);
    assert Three(emitted, task.cache, task.unread, trails, c) == all;
    hide Column, Product, Base, TotalRows, Data;
    SliceOf(Column(emitted[..k], trails, c), Data(emitted[k][c]), all);
  }

  lemma {:induction false} SliceOf<E>(before: seq<E>, d: seq<E>, all: seq<E>)
    requires before + d <= all
    ensures d == all[|before|..|before + d|]
  {
    assert all[..|before + d|] == before + d;
  }

  lemma {:induction false} RowsLeft<E>(batch: seq<Sample<E>>, cache: seq<Sample<E>>, unread: seq<Sample<E>>)
    ensures ThreeRows(batch, cache, unread) - TotalRows(batch) == TotalRows(cache) + TotalRows(unread)
  {
  }

  lemma {:induction false} NothingTaken<E>(trails: seq<seq<nat>>, cache: seq<Sample<E>>, unread: seq<Sample<E>>)
    requires AllFit(cache, trails) && AllFit(unread, trails)
    ensures AllFit<E>([], trails) && TotalRows<E>([]) == 0
    ensures ThreeRows([], cache, unread) == TotalRows(cache) + TotalRows(unread)
    ensures forall c: nat {:trigger Three([], cache, unread, trails, c)} :: c < |trails| ==>
      Three([], cache, unread, trails, c) == Column(cache, trails, c) + Column(unread, trails, c)
  {
    forall c: nat | c < |trails|
      ensures Three([], cache, unread, trails, c) == Column(cache, trails, c) + Column(unread, trails, c)
    {
      assert [] + Column(cache, trails, c) == Column(cache, trails, c);
    }
  }

  /** A batch of the rows at the front becomes the last one emitted. */
  lemma {:induction false} Pushed<E>(trails: seq<seq<nat>>, file: seq<Sample<E>>, emitted: seq<Sample<E>>,
                                     cached: seq<Sample<E>>, left: seq<Sample<E>>, batch: Sample<E>,
                                     cache: seq<Sample<E>>, unread: seq<Sample<E>>, size: nat)
    requires |trails| > 0 && size > 0 && Conserved(trails, file, emitted, cached, left) && Full(emitted, size)
    requires AllFit(cache, trails) && AllFit(unread, trails)
    requires Fits(batch, trails, size) && RowCount(batch) == size && Leading(trails, batch, cached, left, cache, unread)
    ensures Conserved(trails, file, emitted + [batch], cache, unread) && Full(emitted + [batch], size)
    ensures TotalRows(emitted + [batch]) == TotalRows(emitted) + size
  {
    ColumnAppend(emitted, batch, trails, 0);
    hide Column, TotalRows, RowCount;
    forall c: nat | c < |trails|
      ensures Three(emitted + [batch], cache, unread, trails, c) == Column(file, trails, c)
    {
      ColumnAppend(emitted, batch, trails, c);
      Append4(Column(emitted, trails, c), Data(batch[c]), Column(cache, trails, c), Column(unread, trails, c));
      Append3(Data(batch[c]), Column(cache, trails, c), Column(unread, trails, c));
      Append3(Column(emitted, trails, c), Column(cached, trails, c), Column(left, trails, c));
    }
  }
}
