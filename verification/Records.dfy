/** Order files as bytes: fixed-size records and the chunks they are read in. */
module Records {
  import opened Modular
  import Orders

  type pos = x: int | x > 0 witness 1

  type byte = x: int | 0 <= x < 256

  type Record = seq<byte>

  /** One positioned read of at most `size` bytes. */
  function Chunk(file: seq<byte>, offset: nat, size: nat): (r: seq<byte>)
    requires offset <= |file|
  {
    file[offset..offset + Orders.Min(size, |file| - offset)]
  }

  /** The whole records of a buffer; trailing bytes are dropped. */
  function Split(bytes: seq<byte>, size: pos): seq<Record>
    decreases |bytes|
  {
    if |bytes| < size then [] else [bytes[..size]] + Split(bytes[size..], size)
  }

  /** Cutting at a multiple of the record size cuts between records. */
  lemma {:induction false} SplitConcat(a: seq<byte>, b: seq<byte>, size: pos)
    requires |a| % size == 0
    ensures Split(a + b, size) == Split(a, size) + Split(b, size)
    decreases |a|
  {
    if a == [] {
      assert a + b == b;
    } else {
      assert |a| >= size;
      assert |a[size..]| == |a| - size;
      SubMod(|a|, size);
      SplitConcat(a[size..], b, size);
      assert (a + b)[..size] == a[..size] && (a + b)[size..] == a[size..] + b;
    }
  }

  /** r is record k: the bytes from k times the record size on. */
  ghost predicate IsRecord(bytes: seq<byte>, size: pos, k: nat, r: Record) {
    0 <= k * size <= (k + 1) * size <= |bytes| && r == bytes[k * size..(k + 1) * size]
  }

  lemma {:induction false} SplitCount(bytes: seq<byte>, size: pos)
    ensures |Split(bytes, size)| == |bytes| / size
    decreases |bytes|
  {
    if |bytes| < size {
      DivUnique(|bytes|, size, 0, |bytes|);
    } else {
      var n := |bytes| - size;
      DivMod(n, size);
      MulNext(size, n / size);
      DivUnique(|bytes|, size, n / size + 1, n % size);
      SplitCount(bytes[size..], size);
    }
  }

  lemma FirstRecord(bytes: seq<byte>, size: pos)
    requires |bytes| >= size
    ensures IsRecord(bytes, size, 0, bytes[..size])
  {
  }

  lemma LaterRecord(bytes: seq<byte>, size: pos, k: nat, r: Record)
    requires |bytes| >= size && IsRecord(bytes[size..], size, k, r)
    ensures IsRecord(bytes, size, k + 1, r)
  {
    var lo, hi := k * size, (k + 1) * size;
    MulNext(size, k);
    MulNext(size, k + 1);
    assert size * (k + 1) == hi && size * (k + 2) == hi + size;
    assert bytes[size..][lo..hi] == bytes[lo + size..hi + size];
  }

  /** There are as many records as fit into the bytes, and record k is made of its own bytes. */
  lemma {:induction false} SplitAt(bytes: seq<byte>, size: pos, k: nat)
    requires k < |bytes| / size
    ensures |Split(bytes, size)| == |bytes| / size && IsRecord(bytes, size, k, Split(bytes, size)[k])
    decreases |bytes|
  {
    hide IsRecord;
    SplitCount(bytes, size);
    if k == 0 {
      FirstRecord(bytes, size);
    } else {
      var rest := bytes[size..];
      SplitCount(rest, size);
      SplitAt(rest, size, k - 1);
      LaterRecord(bytes, size, k - 1, Split(rest, size)[k - 1]);
    }
  }

  lemma SubMod(x: nat, n: nat)
    requires n > 0 && x >= n && x % n == 0
    ensures (x - n) % n == 0
  {
    ModShift(x - n, n);
  }

  /** Reading on from the end of a full chunk, or to the end of the file, loses no record. */
  lemma SplitChunk(file: seq<byte>, offset: nat, size: pos, record: pos)
    requires offset <= |file| && size % record == 0
    ensures var bytes := Chunk(file, offset, size);
      && (bytes == [] <==> offset == |file|)
      && offset + |bytes| <= |file|
      && Split(file[offset..], record) == Split(bytes, record) + Split(file[offset + |bytes|..], record)
  {
    var bytes := Chunk(file, offset, size);
    assert file[offset..] == bytes + file[offset + |bytes|..];
    if |bytes| == size {
      SplitConcat(bytes, file[offset + |bytes|..], record);
    } else {
      assert file[offset + |bytes|..] == [];
      assert bytes + [] == bytes;
    }
  }

  // ------------------------------------------------------- the two small files

  /** The buffer after reading the file from `offset` on in pieces of the buffer's size, each
      to the beginning of the buffer. */
  function Overlay(file: seq<byte>, offset: nat, buffer: seq<byte>): (r: seq<byte>)
    requires offset <= |file| && buffer != []
    ensures |r| == |buffer|
    decreases |file| - offset
  {
    var bytes := Chunk(file, offset, |buffer|);
    if bytes == [] then buffer else Overlay(file, offset + |bytes|, bytes + buffer[|bytes|..])
  }

  /** The loading loop of the previous-day and the alpha file. */
  method LoadInfo(file: seq<byte>, buffer: array<byte>, record: pos) returns (count: nat)
    requires buffer.Length > 0
    modifies buffer
    ensures buffer[..] == Overlay(file, 0, old(buffer[..])) && count == |file| / record
  {
    hide Overlay;
    var offset := 0;
    var bytes := Chunk(file, offset, buffer.Length);
    while bytes != []
      invariant offset <= |file| && bytes == Chunk(file, offset, buffer.Length)
      invariant Overlay(file, offset, buffer[..]) == Overlay(file, 0, old(buffer[..]))
      decreases |file| - offset
    {
      OverlayStep(file, offset, buffer[..]);
      ghost var before := buffer[..];
      forall i | 0 <= i < |bytes| {
        buffer[i] := bytes[i];
      }
      assert buffer[..] == bytes + before[|bytes|..];
      offset := offset + |bytes|;
      bytes := Chunk(file, offset, buffer.Length);
    }
    OverlayStep(file, offset, buffer[..]);
    count := offset / record;
  }

  lemma OverlayStep(file: seq<byte>, offset: nat, buffer: seq<byte>)
    requires offset <= |file| && buffer != []
    ensures var bytes := Chunk(file, offset, |buffer|);
      Overlay(file, offset, buffer)
      == if bytes == [] then buffer else Overlay(file, offset + |bytes|, bytes + buffer[|bytes|..])
  {
  }

  /** The records a worker reads are in the buffer and are the file's. */
  ghost predicate Loaded(file: seq<byte>, buffer: seq<byte>, record: pos)
    requires buffer != []
  {
    var used := |file| / record * record;
    used <= |file| && used <= |buffer| && Overlay(file, 0, buffer)[..used] == file[..used]
  }

  lemma {:induction false} OverlayFirst(file: seq<byte>, offset: nat, buffer: seq<byte>)
    requires buffer != [] && offset < |file|
    ensures var last := Overlay(file, offset, buffer);
      |file| > offset + |buffer| ==> exists k :: offset + |buffer| <= k < |file| && last[0] == file[k]
    ensures |file| <= offset + |buffer| ==> Overlay(file, offset, buffer) == file[offset..] + buffer[|file| - offset..]
    decreases |file| - offset
  {
    var bytes := Chunk(file, offset, |buffer|);
    var next := bytes + buffer[|bytes|..];
    if |file| > offset + |buffer| {
      OverlayFirst(file, offset + |bytes|, next);
      if |file| <= offset + |bytes| + |buffer| {
        assert Overlay(file, offset, buffer)[0] == file[offset + |bytes|];
      }
    } else {
      assert offset + |bytes| == |file| && bytes == file[offset..];
    }
  }

  lemma UsedBytes(n: nat, record: pos)
    ensures n / record * record <= n
    ensures n >= record ==> n / record * record > 0
  {
    DivMod(n, record);
    if n >= record && n / record <= 0 {
      MulMono(record, n / record, 0);
    }
  }

  lemma LoadedWhenItFits(file: seq<byte>, buffer: seq<byte>, record: pos)
    requires buffer != [] && |file| <= |buffer|
    ensures Loaded(file, buffer, record)
  {
    hide Overlay;
    UsedBytes(|file|, record);
    if file != [] {
      OverlayFirst(file, 0, buffer);
      assert file[0..] == file;
    }
  }

  /** A file whose bytes beyond the buffer's size differ from its first byte. */
  lemma NotLoadedWhenTooLarge(file: seq<byte>, buffer: seq<byte>, record: pos)
    requires record <= |buffer| < |file|
    requires forall k :: |buffer| <= k < |file| ==> file[k] != file[0]
    ensures !Loaded(file, buffer, record)
  {
    UsedBytes(|file|, record);
    var used, last := |file| / record * record, Overlay(file, 0, buffer);
    hide Overlay;
    OverlayFirst(file, 0, buffer);
    assert used <= |buffer| && used <= |file| ==> last[..used][0] != file[..used][0];
  }

  /** A buffer that holds at least one record is filled correctly by every file of n bytes
      exactly if the file is not larger than the buffer. */
  lemma LoadedIffItFits(n: nat, size: pos, record: pos)
    requires record <= size
    ensures n <= size <==>
      forall file: seq<byte>, buffer: seq<byte> :: |file| == n && |buffer| == size ==> Loaded(file, buffer, record)
  {
    hide Loaded;
    if n <= size {
      forall file: seq<byte>, buffer: seq<byte> | |file| == n && |buffer| == size ensures Loaded(file, buffer, record) {
        LoadedWhenItFits(file, buffer, record);
      }
    } else {
      var file: seq<byte> := seq(n, i => if i < size then 0 else 1);
      var buffer: seq<byte> := seq(size, _ => 0);
      NotLoadedWhenTooLarge(file, buffer, record);
    }
  }
}
