/** Record files: a header, samples, and the number of samples patched into the header at the end. */
module RecordIO {
  import opened Bytes
  import opened Sequences
  import opened Tensors

  const TENSOR_NAME_LEN := 32
  const PERCENT: byte := 37

  type Name = seq<byte>

  datatype ItemConfig = ItemConfig(dtype: nat, level: int, isAuxNumber: int)

  /** Bytes of one element of each type. */
  function TypeSize(dtype: nat): nat {
    if dtype == 1 then 8 else 4
  }

  /** The characters up to the first zero. */
  function CString(buf: seq<byte>): (r: seq<byte>)
    ensures |r| <= |buf|
  {
    if buf == [] || buf[0] == 0 then [] else [buf[0]] + CString(buf[1..])
  }

  /** The name is no format, and the configuration's fields fit. */
  ghost predicate NameFits(name: Name) {
    PERCENT !in CString(name)
  }

  ghost predicate ConfigFits(c: ItemConfig) {
    c.dtype <= 2 && -0x8000_0000 <= c.level < 0x8000_0000 && -128 <= c.isAuxNumber < 128
  }

  ghost predicate MetaFits(names: seq<Name>, configs: seq<ItemConfig>) {
    && |names| == |configs| < 0x10000
    && (forall i {:trigger names[i]} :: 0 <= i < |names| ==> NameFits(names[i]))
    && forall i {:trigger configs[i]} :: 0 <= i < |configs| ==> ConfigFits(configs[i])
  }

  /** A tensor of a declared type whose blob is as long as its shape asks. */
  ghost predicate TensorFits(t: Tensor<byte>, dtype: nat) {
    && 0 < |t.shape| < 256 && |t.blob| == Product(t.shape) * TypeSize(dtype)
    && forall k {:trigger t.shape[k]} :: 0 <= k < |t.shape| ==> 0 < t.shape[k] < 0x1_0000_0000
  }

  ghost predicate SampleFits(sample: seq<Tensor<byte>>, configs: seq<ItemConfig>) {
    && |sample| == |configs|
    && forall i {:trigger sample[i]} {:trigger configs[i]} :: 0 <= i < |sample| ==>
      TensorFits(sample[i], configs[i].dtype)
  }

  lemma {:induction false} Bounds()
    ensures Bound(1) == 0x100 && Bound(2) == 0x1_0000
    ensures Bound(4) == 0x1_0000_0000 && Bound(8) == 0x1_0000_0000_0000_0000
  {
    assert Bound(2) == 256 * Bound(1) && Bound(3) == 256 * Bound(2) && Bound(4) == 256 * Bound(3);
    assert Bound(5) == 256 * Bound(4) && Bound(6) == 256 * Bound(5) && Bound(7) == 256 * Bound(6);
  }

  /** What is left of a name: it is cut before its first zero, and to one less than its field. */
  function Kept(name: Name): (r: Name)
    ensures |r| < TENSOR_NAME_LEN
  {
    var c := CString(name);
    if |c| < TENSOR_NAME_LEN then c else c[..TENSOR_NAME_LEN - 1]
  }

  function KeptAll(names: seq<Name>): (r: seq<Name>)
    ensures |r| == |names| && forall i {:trigger r[i]} :: 0 <= i < |r| ==> r[i] == Kept(names[i])
  {
    seq(|names|, i requires 0 <= i < |names| => Kept(names[i]))
  }

  /** snprintf into a buffer: what is kept of the name, a zero, and what the buffer held beyond. */
  function NameField(name: Name, junk: seq<byte>): (r: seq<byte>)
    requires |junk| == TENSOR_NAME_LEN
    ensures |r| == TENSOR_NAME_LEN
  {
    Kept(name) + [0] + junk[|Kept(name)| + 1..]
  }

  lemma {:induction false} NoZero(name: Name)
    ensures 0 !in CString(name) && CString(name) == name[..|CString(name)|]
    ensures CString(name) == name <==> 0 !in name
    decreases |name|
  {
    if name == [] || name[0] == 0 {
    } else {
      NoZero(name[1..]);
      assert name == [name[0]] + name[1..];
    }
  }

  /** A name comes back exactly when it is shorter than its field and has no zero. */
  lemma {:induction false} KeptWhole(name: Name)
    ensures Kept(name) == name <==> |name| < 32 && 0 !in name
  {
    hide CString;
    NoZero(name);
  }

  /** Another name is cut before its first zero, and to 31 characters. */
  lemma {:induction false} KeptCut(name: Name, z: nat)
    requires z <= |name| && 0 !in name[..z] && (z < |name| ==> name[z] == 0)
    ensures Kept(name) == if z < 32 then name[..z] else name[..31]
  {
    hide CString;
    CutAtZero(name, z);
  }

  lemma {:induction false} CutAtZero(name: Name, z: nat)
    requires z <= |name| && 0 !in name[..z] && (z < |name| ==> name[z] == 0)
    ensures CString(name) == name[..z]
    decreases z
  {
    if z > 0 {
      assert name[..z][0] == name[0] && name[..z][1..] == name[1..][..z - 1];
      CutAtZero(name[1..], z - 1);
    }
  }

  lemma {:induction false} NameRead(name: Name, rest: seq<byte>)
    requires 0 !in name
    ensures CString(name + ([0] + rest)) == name
    decreases |name|
  {
    if name == [] {
    } else {
      assert (name + ([0] + rest))[1..] == name[1..] + ([0] + rest);
      NameRead(name[1..], rest);
    }
  }

  lemma {:induction false} FieldRead(name: Name, junk: seq<byte>)
    requires |junk| == TENSOR_NAME_LEN
    ensures CString(NameField(name, junk)) == Kept(name)
  {
    hide CString;
    NoZero(name);
    var k := Kept(name);
    assert 0 !in k;
    NameRead(k, junk[|k| + 1..]);
    assert NameField(name, junk) == k + ([0] + junk[|k| + 1..]);
  }

  function ConfigBytes(c: ItemConfig): seq<byte>
    requires ConfigFits(c)
  {
    Bounds();
    Encode(c.dtype, 1) + (Encode(Unsigned(c.level, 4), 4) + Encode(Unsigned(c.isAuxNumber, 1), 1))
  }

  /** The entries of the header; junk is what the name buffer held before. */
  ghost function EntryBytes(names: seq<Name>, configs: seq<ItemConfig>, junk: seq<byte>): seq<byte>
    requires MetaFits(names, configs) && |junk| == TENSOR_NAME_LEN
    decreases |names|
  {
    if names == [] then []
    else
      assert ConfigFits(configs[0]);
      var field := NameField(names[0], junk);
      field + (ConfigBytes(configs[0]) + EntryBytes(names[1..], configs[1..], field))
  }

  ghost function DimBytes(shape: seq<nat>): seq<byte> {
    if shape == [] then [] else Encode(shape[0], 4) + DimBytes(shape[1..])
  }

  ghost function TensorBytes(t: Tensor<byte>): seq<byte> {
    Encode(|t.shape|, 1) + (DimBytes(t.shape) + t.blob)
  }

  ghost function TensorsBytes(sample: seq<Tensor<byte>>): seq<byte> {
    if sample == [] then [] else TensorBytes(sample[0]) + TensorsBytes(sample[1..])
  }

  ghost function SampleBytes(sample: seq<Tensor<byte>>): seq<byte> {
    Encode(|sample|, 2) + TensorsBytes(sample)
  }

  predicate IsPrimary(c: ItemConfig) {
    c.level == 0 && c.isAuxNumber == 0
  }

  /** The number of rows of a sample: those of its last primary tensor. */
  function BatchSize(sample: seq<Tensor<byte>>, configs: seq<ItemConfig>): nat
    requires |sample| <= |configs|
    requires forall i {:trigger sample[i]} :: 0 <= i < |sample| ==> |sample[i].shape| > 0
  {
    if sample == [] then 1
    else
      var i := |sample| - 1;
      if IsPrimary(configs[i]) then sample[i].shape[0] else BatchSize(sample[..i], configs)
  }

  /** The stream with the bytes written at the position. */
  function Written(stream: seq<byte>, pos: nat, bytes: seq<byte>): seq<byte>
    requires pos <= |stream|
  {
    stream[..pos] + bytes + if pos + |bytes| <= |stream| then stream[pos + |bytes|..] else []
  }

  ghost function HeaderBytes(version: nat, count: nat, names: seq<Name>, configs: seq<ItemConfig>,
                             junk: seq<byte>): seq<byte>
    requires MetaFits(names, configs) && |junk| == TENSOR_NAME_LEN
  {
    Encode(version, 4) + (Encode(count, 8) + (Encode(|names|, 2) + EntryBytes(names, configs, junk)))
  }

  class RecordIO {
    var stream: seq<byte>
    var pos: nat
    var names: seq<Name>
    var configs: seq<ItemConfig>
    var sampleCount: nat
    var version: nat

    constructor (stream: seq<byte>)
      ensures this.stream == stream && pos == 0 && sampleCount == 0 && names == [] && configs == []
    {
      this.stream, pos, names, configs, sampleCount, version := stream, 0, [], [], 0, 0;
    }

    method Write(bytes: seq<byte>)
      requires pos <= |stream|
      modifies `stream, `pos
      ensures stream == Written(old(stream), old(pos), bytes) && pos == old(pos) + |bytes|
    {
      stream := Written(stream, pos, bytes);
      pos := pos + |bytes|;
    }

    method Read(n: nat) returns (bytes: seq<byte>)
      requires pos + n <= |stream|
      modifies `pos
      ensures bytes == stream[old(pos)..old(pos) + n] && pos == old(pos) + n
    {
      bytes := stream[pos..pos + n];
      pos := pos + n;
    }

    /** Write the header, with the number of samples so far, which is none. The order of the names is that of a walk
        over the caller's map. */
    method WriteHeader(metaNames: seq<Name>, metaConfigs: seq<ItemConfig>, hppsVersion: nat, buffer: seq<byte>)
      requires stream == [] && pos == 0 && names == [] && configs == [] && sampleCount == 0
      requires MetaFits(metaNames, metaConfigs) && hppsVersion < 0x8000_0000 && |buffer| == TENSOR_NAME_LEN
      modifies this
      ensures names == metaNames && configs == metaConfigs && version == hppsVersion && sampleCount == 0
      ensures stream == HeaderBytes(version, 0, names, configs, buffer) && pos == |stream|
    {
      hide Encode, ConfigBytes, NameField, EntryBytes;
      names, configs, version := metaNames, metaConfigs, hppsVersion;
      Write(Encode(version, 4));
      Write(Encode(sampleCount, 8));
      Write(Encode(|names|, 2));
      ghost var start := stream;
      var buf := buffer;
      for i := 0 to |names|
        invariant names == metaNames && configs == metaConfigs && version == hppsVersion && sampleCount == 0
        invariant |buf| == TENSOR_NAME_LEN && pos == |stream|
        invariant stream + EntryBytes(names[i..], configs[i..], buf) == start + EntryBytes(names, configs, buffer)
      {
        EntryWritten(stream, names, configs, i, buf);
        buf := NameField(names[i], buf);
        Write(buf);
        Write(ConfigBytes(configs[i]));
      }
      NoEntries(names[|names|..], configs[|configs|..], buf);
      assert stream + [] == stream;
      Append4(Encode(version, 4), Encode(0, 8), Encode(|names|, 2), EntryBytes(names, configs, buffer));
    }

    /** Read one name and its configuration. */
    method ReadEntry(ghost name: Name, ghost config: ItemConfig)
      requires pos + 38 <= |stream| && CString(stream[pos..pos + 32]) == name
      requires config == ItemConfig(Decode(stream[pos + 32..pos + 33]), Signed(Decode(stream[pos + 33..pos + 37]), 4),
                                    Signed(Decode(stream[pos + 37..pos + 38]), 1))
      modifies `pos, `names, `configs
      ensures pos == old(pos) + 38 && names == old(names) + [name] && configs == old(configs) + [config]
    {
      hide Decode, Signed, CString;
      var buf := Read(TENSOR_NAME_LEN);
      names := names + [CString(buf)];
      var dtype := Read(1);
      var level := Read(4);
      var aux := Read(1);
      configs := configs + [ItemConfig(Decode(dtype), Signed(Decode(level), 4), Signed(Decode(aux), 1))];
    }

    /** Read the header back. */
    method ReadHeader(ghost v: nat, ghost count: nat, ghost ns: seq<Name>, ghost cs: seq<ItemConfig>,
                      ghost junk: seq<byte>)
      requires MetaFits(ns, cs) && |junk| == TENSOR_NAME_LEN && v < 0x8000_0000 && count < 0x1_0000_0000_0000_0000
      requires At(stream, pos, HeaderBytes(v, count, ns, cs, junk))
      modifies this
      ensures version == v && sampleCount == count && names == KeptAll(ns) && configs == cs
      ensures stream == old(stream) && pos == old(pos) + |HeaderBytes(v, count, ns, cs, junk)|
    {
      hide Encode, Decode, ConfigBytes, At, EntryBytes, HeaderBytes, CString, Kept;
      HeaderAt(stream, pos, v, count, ns, cs, junk);
      var b := Read(4);
      version := Decode(b);
      b := Read(8);
      sampleCount := Decode(b);
      b := Read(2);
      var tensorCount := Decode(b);
      names, configs := [], [];
      ghost var field := junk;
      for i := 0 to tensorCount
        invariant version == v && sampleCount == count && stream == old(stream) && |field| == TENSOR_NAME_LEN
        invariant names == KeptAll(ns)[..i] && configs == cs[..i]
        invariant At(stream, pos, EntryBytes(ns[i..], cs[i..], field))
        invariant pos + |EntryBytes(ns[i..], cs[i..], field)| == old(pos) + |HeaderBytes(v, count, ns, cs, junk)|
      {
        EntryAt(stream, pos, ns[i..], cs[i..], field);
        assert ns[i..][1..] == ns[i + 1..] && cs[i..][1..] == cs[i + 1..];
        assert ns[i..][0] == ns[i] && cs[i..][0] == cs[i];
        field := stream[pos..pos + TENSOR_NAME_LEN];
        ReadEntry(Kept(ns[i]), cs[i]);
      }
      assert KeptAll(ns)[..|ns|] == KeptAll(ns) && cs[..|cs|] == cs;
      NoEntries(ns[|ns|..], cs[|cs|..], field);
    }

    /** Append the sample; its rows are added to the count. */
    method WriteSample(sample: map<Name, Tensor<byte>>) returns (failed: bool)
      requires pos == |stream| && |names| == |configs|
      requires forall i {:trigger names[i]} :: 0 <= i < |names| && names[i] in sample ==> |sample[names[i]].shape| > 0
      modifies `stream, `pos, `sampleCount
      ensures failed <==> !Complete(names, sample)
      ensures !failed ==>
        var s := InOrder(names, sample);
        && stream == old(stream) + SampleBytes(s) && pos == |stream|
        && sampleCount == old(sampleCount) + BatchSize(s, configs)
    {
      hide Encode, TensorBytes, Product;
      failed := false;
      Write(Encode(|names|, 2));
      var batchSize := 1;
      ghost var start := stream;
      ghost var written: seq<Tensor<byte>> := [];
      for i := 0 to |names|
        invariant pos == |stream| && stream == start + TensorsBytes(written)
        invariant |written| == i && forall j {:trigger written[j]} {:trigger names[j]} :: 0 <= j < i ==>
          names[j] in sample && written[j] == sample[names[j]]
        invariant batchSize == BatchSize(written, configs) && sampleCount == old(sampleCount)
      {
        if names[i] !in sample {
          failed := true;
          return;
        }
        var tensor := sample[names[i]];
        if IsPrimary(configs[i]) {
          batchSize := tensor.shape[0];
        }
        WriteTensor(tensor);
        TensorsAppend(written, tensor);
        assert (written + [tensor])[..i] == written;
        written := written + [tensor];
      }
      sampleCount := sampleCount + batchSize;
      assert written == InOrder(names, sample);
      Append3(old(stream), Encode(|names|, 2), TensorsBytes(written));
    }

    /** Read a sample back. */
    method ReadSampleAsArray(ghost sent: seq<Tensor<byte>>) returns (tensors: seq<Tensor<byte>>)
      requires |names| == |configs| < 0x1_0000 && SampleFits(sent, configs) && At(stream, pos, SampleBytes(sent))
      requires forall i {:trigger configs[i]} :: 0 <= i < |configs| ==> configs[i].dtype <= 2
      modifies `pos
      ensures tensors == sent && pos == old(pos) + |SampleBytes(sent)|
    {
      hide Encode, Decode, At, TensorsBytes, TensorBytes, TensorFits;
      CountAt(stream, pos, sent);
      var b := Read(2);
      var count := Decode(b);
      assert count == |names|;
      tensors := [];
      for i := 0 to count
        invariant tensors == sent[..i] && At(stream, pos, TensorsBytes(sent[i..]))
        invariant pos + |TensorsBytes(sent[i..])| == old(pos) + |SampleBytes(sent)|
      {
        TensorAt(stream, pos, sent[i..]);
        assert sent[i..][1..] == sent[i + 1..] && sent[i..][0] == sent[i];
        assert TensorFits(sent[i], configs[i].dtype);
        var t := ReadTensor(configs[i].dtype, sent[i]);
        tensors := tensors + [t];
      }
      assert sent[..|sent|] == sent && sent[|sent|..] == [];
      NoTensors();
    }

    method ReadTensor(dtype: nat, ghost sent: Tensor<byte>) returns (t: Tensor<byte>)
      requires TensorFits(sent, dtype) && At(stream, pos, TensorBytes(sent))
      modifies `pos
      ensures t == sent && pos == old(pos) + |TensorBytes(sent)|
    {
      hide Encode, Decode, At, DimBytes, Product;
      ShapeAt(stream, pos, sent);
      var b := Read(1);
      var dimCount := Decode(b);
      var shape := [];
      for k := 0 to dimCount
        invariant shape == sent.shape[..k] && At(stream, pos, DimBytes(sent.shape[k..]) + sent.blob)
        invariant pos + |DimBytes(sent.shape[k..])| + |sent.blob| == old(pos) + |TensorBytes(sent)|
      {
        DimAt(stream, pos, sent.shape[k..], sent.blob);
        assert sent.shape[k..][1..] == sent.shape[k + 1..] && sent.shape[k..][0] == sent.shape[k];
        b := Read(4);
        shape := shape + [Decode(b)];
      }
      assert sent.shape[..|sent.shape|] == sent.shape && sent.shape[|sent.shape|..] == [];
      NoDims(stream, pos, sent.blob);
      b := Read(Product(shape) * TypeSize(dtype));
      t := Tensor(shape, b);
    }

    method WriteTensor(t: Tensor<byte>)
      requires pos == |stream|
      modifies `stream, `pos
      ensures stream == old(stream) + TensorBytes(t) && pos == |stream|
    {
      hide Encode;
      Write(Encode(|t.shape|, 1));
      ghost var start := stream;
      for k := 0 to |t.shape|
        invariant pos == |stream| && stream + DimBytes(t.shape[k..]) == start + DimBytes(t.shape)
      {
        assert t.shape[k..][1..] == t.shape[k + 1..];
        Append3(stream, Encode(t.shape[k], 4), DimBytes(t.shape[k + 1..]));
        Write(Encode(t.shape[k], 4));
      }
      assert t.shape[|t.shape|..] == [] && stream + [] == stream;
      Write(t.blob);
      Append3(old(stream) + Encode(|t.shape|, 1), DimBytes(t.shape), t.blob);
      Append3(old(stream), Encode(|t.shape|, 1), DimBytes(t.shape) + t.blob);
    }

    /** Seek back and put the number of samples behind the version. */
    method WriteFinalize()
      requires 12 <= |stream|
      modifies `stream, `pos
      ensures stream == old(stream)[..4] + Encode(sampleCount, 8) + old(stream)[12..]
    {
      pos := 4;
      Write(Encode(sampleCount, 8));
    }
  }

  /** The tensors of a sample in the order of the names. */
  ghost function InOrder(names: seq<Name>, sample: map<Name, Tensor<byte>>): (r: seq<Tensor<byte>>)
    requires Complete(names, sample)
    ensures |r| == |names| && forall i {:trigger r[i]} :: 0 <= i < |r| ==> r[i] == sample[names[i]]
  {
    seq(|names|, i requires 0 <= i < |names| => sample[names[i]])
  }

  lemma {:induction false} TensorsAppend(a: seq<Tensor<byte>>, t: Tensor<byte>)
    ensures TensorsBytes(a + [t]) == TensorsBytes(a) + TensorBytes(t)
    decreases |a|
  {
    hide TensorBytes;
    if a == [] {
      assert [] + [t] == [t] && [t][1..] == [];
      assert TensorsBytes([t]) == TensorBytes(t) + [];
    } else {
      assert (a + [t])[1..] == a[1..] + [t];
      TensorsAppend(a[1..], t);
    }
  }

  lemma {:induction false} NoEntries(names: seq<Name>, configs: seq<ItemConfig>, junk: seq<byte>)
    requires names == [] && configs == [] && |junk| == TENSOR_NAME_LEN
    ensures EntryBytes(names, configs, junk) == []
  {
  }

  /** Writing the first of the entries left. */
  lemma {:induction false} EntryWritten(stream: seq<byte>, names: seq<Name>, configs: seq<ItemConfig>, i: nat,
                                        junk: seq<byte>)
    requires MetaFits(names, configs) && i < |names| && |junk| == TENSOR_NAME_LEN
    ensures ConfigFits(configs[i])
    ensures var field := NameField(names[i], junk);
            stream + field + ConfigBytes(configs[i]) + EntryBytes(names[i + 1..], configs[i + 1..], field)
            == stream + EntryBytes(names[i..], configs[i..], junk)
  {
    assert ConfigFits(configs[i]);
    hide ConfigBytes, NameField;
    assert names[i..][1..] == names[i + 1..] && configs[i..][1..] == configs[i + 1..];
    var field := NameField(names[i], junk);
    Append4(stream, field, ConfigBytes(configs[i]), EntryBytes(names[i + 1..], configs[i + 1..], field));
  }

  /** The fixed part of a header, and its entries behind it. */
  lemma {:induction false} HeaderAt(stream: seq<byte>, pos: nat, version: nat, count: nat, names: seq<Name>,
                                    configs: seq<ItemConfig>, junk: seq<byte>)
    requires MetaFits(names, configs) && |junk| == TENSOR_NAME_LEN
    requires version < 0x8000_0000 && count < 0x1_0000_0000_0000_0000
    requires At(stream, pos, HeaderBytes(version, count, names, configs, junk))
    ensures pos + 14 <= |stream|
    ensures Decode(stream[pos..pos + 4]) == version
    ensures Decode(stream[pos + 4..pos + 12]) == count
    ensures Decode(stream[pos + 12..pos + 14]) == |names|
    ensures At(stream, pos + 14, EntryBytes(names, configs, junk))
    ensures |HeaderBytes(version, count, names, configs, junk)| == 14 + |EntryBytes(names, configs, junk)|
  {
    hide Encode, Decode, EntryBytes;
    Bounds();
    var e := EntryBytes(names, configs, junk);
    AtConcat(stream, pos, Encode(version, 4), Encode(count, 8) + (Encode(|names|, 2) + e));
    AtConcat(stream, pos + 4, Encode(count, 8), Encode(|names|, 2) + e);
    AtConcat(stream, pos + 12, Encode(|names|, 2), e);
    DecodeEncode(version, 4);
    DecodeEncode(count, 8);
    DecodeEncode(|names|, 2);
  }

  /** The first entry, field by field, and the others behind it. */
  lemma {:induction false} EntryAt(stream: seq<byte>, pos: nat, names: seq<Name>, configs: seq<ItemConfig>,
                                   junk: seq<byte>)
    requires MetaFits(names, configs) && |junk| == TENSOR_NAME_LEN && names != []
    requires At(stream, pos, EntryBytes(names, configs, junk))
    ensures pos + 38 <= |stream| && CString(stream[pos..pos + 32]) == Kept(names[0])
    ensures configs[0] == ItemConfig(Decode(stream[pos + 32..pos + 33]), Signed(Decode(stream[pos + 33..pos + 37]), 4),
                                     Signed(Decode(stream[pos + 37..pos + 38]), 1))
    ensures At(stream, pos + 38, EntryBytes(names[1..], configs[1..], stream[pos..pos + 32]))
    ensures |EntryBytes(names, configs, junk)| == 38 + |EntryBytes(names[1..], configs[1..], stream[pos..pos + 32])|
  {
    hide Encode, Decode, CString, NameField;
    Bounds();
    assert ConfigFits(configs[0]);
    var field := NameField(names[0], junk);
    var c, rest := configs[0], EntryBytes(names[1..], configs[1..], field);
    var level, aux := Encode(Unsigned(c.level, 4), 4), Encode(Unsigned(c.isAuxNumber, 1), 1);
    AtConcat(stream, pos, field, ConfigBytes(c) + rest);
    AtConcat(stream, pos + 32, ConfigBytes(c), rest);
    AtConcat(stream, pos + 32, Encode(c.dtype, 1), level + aux);
    AtConcat(stream, pos + 33, level, aux);
    FieldRead(names[0], junk);
    DecodeEncode(c.dtype, 1);
    DecodeEncode(Unsigned(c.level, 4), 4);
    DecodeEncode(Unsigned(c.isAuxNumber, 1), 1);
  }

  lemma {:induction false} CountAt(stream: seq<byte>, pos: nat, sample: seq<Tensor<byte>>)
    requires At(stream, pos, SampleBytes(sample)) && |sample| < 0x1_0000
    ensures pos + 2 <= |stream| && Decode(stream[pos..pos + 2]) == |sample|
    ensures At(stream, pos + 2, TensorsBytes(sample)) && |SampleBytes(sample)| == 2 + |TensorsBytes(sample)|
  {
    hide Encode, Decode, TensorsBytes;
    Bounds();
    AtConcat(stream, pos, Encode(|sample|, 2), TensorsBytes(sample));
    DecodeEncode(|sample|, 2);
  }

  lemma {:induction false} TensorAt(stream: seq<byte>, pos: nat, sample: seq<Tensor<byte>>)
    requires At(stream, pos, TensorsBytes(sample)) && sample != []
    ensures At(stream, pos, TensorBytes(sample[0]))
    ensures At(stream, pos + |TensorBytes(sample[0])|, TensorsBytes(sample[1..]))
    ensures |TensorsBytes(sample)| == |TensorBytes(sample[0])| + |TensorsBytes(sample[1..])|
  {
    hide TensorBytes;
    AtConcat(stream, pos, TensorBytes(sample[0]), TensorsBytes(sample[1..]));
  }

  lemma {:induction false} NoTensors()
    ensures TensorsBytes([]) == []
  {
  }

  lemma {:induction false} ShapeAt(stream: seq<byte>, pos: nat, t: Tensor<byte>)
    requires At(stream, pos, TensorBytes(t)) && |t.shape| < 256
    ensures pos + 1 <= |stream| && Decode(stream[pos..pos + 1]) == |t.shape|
    ensures At(stream, pos + 1, DimBytes(t.shape) + t.blob) && |TensorBytes(t)| == 1 + |DimBytes(t.shape)| + |t.blob|
  {
    hide Encode, Decode, DimBytes;
    Bounds();
    AtConcat(stream, pos, Encode(|t.shape|, 1), DimBytes(t.shape) + t.blob);
    DecodeEncode(|t.shape|, 1);
  }

  lemma {:induction false} DimAt(stream: seq<byte>, pos: nat, dims: seq<nat>, blob: seq<byte>)
    requires dims != [] && dims[0] < 0x1_0000_0000 && At(stream, pos, DimBytes(dims) + blob)
    ensures pos + 4 <= |stream| && Decode(stream[pos..pos + 4]) == dims[0]
    ensures At(stream, pos + 4, DimBytes(dims[1..]) + blob) && |DimBytes(dims)| == 4 + |DimBytes(dims[1..])|
  {
    hide Encode, Decode;
    Bounds();
    Append3(Encode(dims[0], 4), DimBytes(dims[1..]), blob);
    AtConcat(stream, pos, Encode(dims[0], 4), DimBytes(dims[1..]) + blob);
    DecodeEncode(dims[0], 4);
  }

  lemma {:induction false} NoDims(stream: seq<byte>, pos: nat, blob: seq<byte>)
    requires At(stream, pos, DimBytes([]) + blob)
    ensures DimBytes([]) == [] && pos + |blob| <= |stream| && stream[pos..pos + |blob|] == blob
  {
    assert [] + blob == blob;
  }

  /** A whole file: header, then the samples. */
  ghost function SamplesBytes(samples: seq<seq<Tensor<byte>>>): seq<byte> {
    if samples == [] then [] else SamplesBytes(samples[..|samples| - 1]) + SampleBytes(samples[|samples| - 1])
  }

  ghost predicate AllFit(samples: seq<seq<Tensor<byte>>>, configs: seq<ItemConfig>) {
    forall k {:trigger samples[k]} :: 0 <= k < |samples| ==> SampleFits(samples[k], configs)
  }

  ghost function Rows(sample: seq<Tensor<byte>>, configs: seq<ItemConfig>): nat
    requires SampleFits(sample, configs)
  {
    assert forall i {:trigger sample[i]} :: 0 <= i < |sample| ==> TensorFits(sample[i], configs[i].dtype);
    BatchSize(sample, configs)
  }

  /** The number of rows of all samples. */
  ghost function TotalCount(samples: seq<seq<Tensor<byte>>>, configs: seq<ItemConfig>): nat
    requires AllFit(samples, configs)
  {
    if samples == [] then 0
    else
      var last := samples[|samples| - 1];
      TotalCount(samples[..|samples| - 1], configs) + Rows(last, configs)
  }

  /** The rows counted are those of the last tensor of level 0 that is no auxiliary one. */
  lemma {:induction false} LastPrimaryCounts(sample: seq<Tensor<byte>>, configs: seq<ItemConfig>, p: nat)
    requires |sample| <= |configs| && p < |sample| && configs[p].level == 0 && configs[p].isAuxNumber == 0
    requires forall i {:trigger configs[i]} :: p < i < |sample| ==> configs[i].level != 0 || configs[i].isAuxNumber != 0
    requires forall i {:trigger sample[i]} :: 0 <= i < |sample| ==> |sample[i].shape| > 0
    ensures BatchSize(sample, configs) == sample[p].shape[0]
    decreases |sample|
  {
    if p < |sample| - 1 {
      LastPrimaryCounts(sample[..|sample| - 1], configs, p);
    }
  }

  /** A sample of other tensors only counts as one row. */
  lemma {:induction false} OthersCountOne(sample: seq<Tensor<byte>>, configs: seq<ItemConfig>)
    requires |sample| <= |configs|
    requires forall i {:trigger configs[i]} :: 0 <= i < |sample| ==>
               configs[i].level != 0 || configs[i].isAuxNumber != 0
    requires forall i {:trigger sample[i]} :: 0 <= i < |sample| ==> |sample[i].shape| > 0
    ensures BatchSize(sample, configs) == 1
    decreases |sample|
  {
    if sample != [] {
      OthersCountOne(sample[..|sample| - 1], configs);
    }
  }

  /** When all tensors of level 0 that are no auxiliary ones have the same number of rows, that is what is counted. */
  lemma {:induction false} PrimaryRows(sample: seq<Tensor<byte>>, configs: seq<ItemConfig>, rows: nat, p: nat)
    requires |sample| <= |configs| && p < |sample| && configs[p].level == 0 && configs[p].isAuxNumber == 0
    requires forall i {:trigger sample[i]} :: 0 <= i < |sample| ==>
      |sample[i].shape| > 0 && (configs[i].level == 0 && configs[i].isAuxNumber == 0 ==> sample[i].shape[0] == rows)
    ensures BatchSize(sample, configs) == rows
    decreases |sample|
  {
    var i := |sample| - 1;
    if configs[i].level != 0 || configs[i].isAuxNumber != 0 {
      PrimaryRows(sample[..i], configs, rows, p);
    }
  }

  /** How long the parts of a file are: 14 bytes and 38 for every column, and in a sample 2 bytes, and for every tensor
      one byte, four for every dimension and the elements, of eight bytes in columns of type 1 and of four in others. */
  lemma {:induction false} HeaderLength(version: nat, count: nat, names: seq<Name>, configs: seq<ItemConfig>,
                                        junk: seq<byte>)
    requires MetaFits(names, configs) && |junk| == TENSOR_NAME_LEN
    ensures |HeaderBytes(version, count, names, configs, junk)| == 14 + 38 * |names|
    decreases |names|
  {
    hide Encode, NameField;
    if names == [] {
    } else {
      HeaderLength(version, count, names[1..], configs[1..], NameField(names[0], junk));
    }
  }

  lemma {:induction false} TensorLength(t: Tensor<byte>, dtype: nat)
    requires TensorFits(t, dtype)
    ensures |TensorBytes(t)| == 1 + 4 * |t.shape| + Product(t.shape) * if dtype == 1 then 8 else 4
  {
    hide Encode, Product;
    DimsLength(t.shape);
  }

  lemma {:induction false} DimsLength(shape: seq<nat>)
    ensures |DimBytes(shape)| == 4 * |shape|
  {
    hide Encode;
    if shape == [] {
    } else {
      DimsLength(shape[1..]);
    }
  }

  /** Patching the count gives the header a count of all samples would have had from the start. */
  lemma {:induction false} PatchedHeader(version: nat, old_count: nat, count: nat, names: seq<Name>,
                                         configs: seq<ItemConfig>,
                                         junk: seq<byte>, body: seq<byte>)
    requires MetaFits(names, configs) && |junk| == TENSOR_NAME_LEN
    ensures var stream := HeaderBytes(version, old_count, names, configs, junk) + body;
            && |stream| >= 12
            && stream[..4] + Encode(count, 8) + stream[12..] == HeaderBytes(version, count, names, configs, junk) + body
  {
    hide Encode, EntryBytes;
    var e := Encode(|names|, 2) + EntryBytes(names, configs, junk);
    var stream := HeaderBytes(version, old_count, names, configs, junk) + body;
    assert stream == Encode(version, 4) + (Encode(old_count, 8) + (e + body));
    assert stream[..4] == Encode(version, 4) && stream[12..] == e + body;
    assert HeaderBytes(version, count, names, configs, junk) + body ==
      Encode(version, 4) + Encode(count, 8) + (e + body);
  }

  /** Sample k of a file stands behind the header and the samples before it. */
  lemma {:induction false} SampleAt(header: seq<byte>, samples: seq<seq<Tensor<byte>>>, k: nat)
    requires k < |samples|
    ensures At(header + SamplesBytes(samples), |header| + |SamplesBytes(samples[..k])|, SampleBytes(samples[k]))
    ensures |SamplesBytes(samples[..k + 1])| == |SamplesBytes(samples[..k])| + |SampleBytes(samples[k])|
    decreases |samples|
  {
    hide SampleBytes;
    var last := |samples| - 1;
    assert samples[..k + 1][..k] == samples[..k];
    var before, s := SamplesBytes(samples[..last]), SampleBytes(samples[last]);
    var all := header + SamplesBytes(samples);
    assert all == header + before + s;
    if k == last {
      assert all[|header| + |before|..|header| + |before| + |s|] == s;
    } else {
      SampleAt(header, samples[..last], k);
      assert samples[..last][..k] == samples[..k] && samples[..last][k] == samples[k];
      var p, piece := |header| + |SamplesBytes(samples[..k])|, SampleBytes(samples[k]);
      assert all[p..p + |piece|] == (header + before)[p..p + |piece|];
    }
  }

  /** A file written sample by sample: its bytes are the header, with the number of all rows, and the samples. */
  method WriteFile(names: seq<Name>, configs: seq<ItemConfig>, version: nat, buffer: seq<byte>,
                   samples: seq<map<Name, Tensor<byte>>>)
    returns (stream: seq<byte>)
    requires MetaFits(names, configs) && version < 0x8000_0000 && |buffer| == TENSOR_NAME_LEN
    requires forall k {:trigger samples[k]} :: 0 <= k < |samples| ==>
      Complete(names, samples[k]) && SampleFits(InOrder(names, samples[k]), configs)
    ensures AllFit(Ordered(names, samples), configs)
    ensures stream == HeaderBytes(version, TotalCount(Ordered(names, samples), configs), names, configs, buffer)
                      + SamplesBytes(Ordered(names, samples))
  {
    hide HeaderBytes, SampleBytes, SampleFits, MetaFits;
    var io := new RecordIO([]);
    io.WriteHeader(names, configs, version, buffer);
    ghost var header := io.stream;
    ghost var all := Ordered(names, samples);
    assert header + [] == header;
    for k := 0 to |samples|
      invariant io.names == names && io.configs == configs && io.pos == |io.stream|
      invariant AllFit(all[..k], configs)
      invariant io.stream == header + SamplesBytes(all[..k]) && io.sampleCount == TotalCount(all[..k], configs)
    {
      assert Complete(names, samples[k]) && all[k] == InOrder(names, samples[k]);
      assert all[..k + 1][..k] == all[..k];
      Shapes(all[k], configs);
      assert forall i {:trigger names[i]} :: 0 <= i < |names| ==> all[k][i] == samples[k][names[i]];
      var failed := io.WriteSample(samples[k]);
      Append3(header, SamplesBytes(all[..k]), SampleBytes(all[k]));
    }
    assert all[..|all|] == all;
    PatchedHeader(version, 0, io.sampleCount, names, configs, buffer, SamplesBytes(all));
    io.WriteFinalize();
    stream := io.stream;
  }

  lemma {:induction false} Shapes(sample: seq<Tensor<byte>>, configs: seq<ItemConfig>)
    requires SampleFits(sample, configs)
    ensures |sample| == |configs| && forall i {:trigger sample[i]} :: 0 <= i < |sample| ==> |sample[i].shape| > 0
  {
    forall i | 0 <= i < |sample| ensures |sample[i].shape| > 0 {
      assert TensorFits(sample[i], configs[i].dtype);
    }
  }

  /** The sample has a tensor for every name. */
  ghost predicate Complete(names: seq<Name>, sample: map<Name, Tensor<byte>>) {
    forall i {:trigger names[i]} :: 0 <= i < |names| ==> names[i] in sample
  }

  ghost function Ordered(names: seq<Name>, samples: seq<map<Name, Tensor<byte>>>): (r: seq<seq<Tensor<byte>>>)
    requires forall k {:trigger samples[k]} :: 0 <= k < |samples| ==> Complete(names, samples[k])
    ensures |r| == |samples| && forall k {:trigger r[k]} :: 0 <= k < |r| ==> r[k] == InOrder(names, samples[k])
  {
    seq(|samples|, k requires 0 <= k < |samples| => InOrder(names, samples[k]))
  }

  /** Reading a written file gives back the header's fields, the number of rows, and every sample in turn. */
  method ReadFile(stream: seq<byte>, ghost names: seq<Name>, ghost configs: seq<ItemConfig>, ghost version: nat,
                  ghost junk: seq<byte>, ghost count: nat, ghost sent: seq<seq<Tensor<byte>>>, numSamples: nat)
    returns (io: RecordIO, samples: seq<seq<Tensor<byte>>>)
    requires MetaFits(names, configs) && |junk| == TENSOR_NAME_LEN && version < 0x8000_0000
    requires count < 0x1_0000_0000_0000_0000 && AllFit(sent, configs) && numSamples == |sent|
    requires stream == HeaderBytes(version, count, names, configs, junk) + SamplesBytes(sent)
    ensures io.version == version && io.sampleCount == count && io.names == KeptAll(names) && io.configs == configs
    ensures samples == sent && io.pos == |stream|
  {
    hide HeaderBytes, SampleBytes, SampleFits, At, ConfigFits, NameFits, TensorFits;
    ghost var header := HeaderBytes(version, count, names, configs, junk);
    io := new RecordIO(stream);
    HeaderIsThere(header, SamplesBytes(sent));
    io.ReadHeader(version, count, names, configs, junk);
    KnownTypes(names, configs);
    samples := [];
    assert sent[..0] == [];
    for k := 0 to numSamples
      invariant io.stream == stream && io.version == version && io.sampleCount == count
      invariant io.names == KeptAll(names) && io.configs == configs
      invariant samples == sent[..k] && io.pos == |header| + |SamplesBytes(sent[..k])|
    {
      SampleAt(header, sent, k);
      var s := io.ReadSampleAsArray(sent[k]);
      samples := samples + [s];
    }
    assert sent[..|sent|] == sent;
  }

  lemma {:induction false} HeaderIsThere(header: seq<byte>, body: seq<byte>)
    ensures At(header + body, 0, header)
  {
  }

  lemma {:induction false} KnownTypes(names: seq<Name>, configs: seq<ItemConfig>)
    requires MetaFits(names, configs)
    ensures forall i {:trigger configs[i]} :: 0 <= i < |configs| ==> configs[i].dtype <= 2
  {
  }
}
