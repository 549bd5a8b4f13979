/** The two probes for a dynamic linker in an ELF image: on bytes in memory and on a file. */
module Elf {
  import opened Prelude

  const USIZE_MAX: nat := 0xFFFF_FFFF_FFFF_FFFF
  const PT_INTERP: nat := 3
  const MAGIC: Bytes := [0x7f, 0x45, 0x4c, 0x46]

  // ------------------------------------------------------------------ byte order

  function Reverse(b: Bytes): (r: Bytes)
    ensures |r| == |b| && forall i :: 0 <= i < |b| ==> r[i] == b[|b| - 1 - i]
  {
    if b == [] then [] else Reverse(b[1..]) + [b[0]]
  }

  /** Value of bytes stored least significant first. */
  function LittleEndian(b: Bytes): nat {
    if b == [] then 0 else b[0] as nat + 256 * LittleEndian(b[1..])
  }

  function Value(b: Bytes, le: bool): nat {
    LittleEndian(if le then b else Reverse(b))
  }

  function Pow256(n: nat): nat {
    if n == 0 then 1 else 256 * Pow256(n - 1)
  }

  /** The `width` bytes of `v`, least significant first. */
  function Digits(v: nat, width: nat): (b: Bytes)
    ensures |b| == width
  {
    if width == 0 then [] else [(v % 256) as byte] + Digits(v / 256, width - 1)
  }

  function Encode(v: nat, width: nat, le: bool): (b: Bytes)
    ensures |b| == width
  {
    if le then Digits(v, width) else Reverse(Digits(v, width))
  }

  lemma {:induction false} DigitsRoundTrip(v: nat, width: nat)
    requires v < Pow256(width)
    ensures LittleEndian(Digits(v, width)) == v
  {
    if width > 0 {
      assert v / 256 < Pow256(width - 1);
      DigitsRoundTrip(v / 256, width - 1);
      assert Digits(v, width)[1..] == Digits(v / 256, width - 1);
    }
  }

  lemma ReverseTwice(b: Bytes)
    ensures Reverse(Reverse(b)) == b
  {
  }

  /** Reading a number back in the byte order it was written in. */
  lemma EncodeRoundTrip(v: nat, width: nat, le: bool)
    requires v < Pow256(width)
    ensures Value(Encode(v, width, le), le) == v
  {
    DigitsRoundTrip(v, width);
    ReverseTwice(Digits(v, width));
  }

  // -------------------------------------------------------------------- the header

  predicate HasMagic(b: Bytes) {
    |b| >= 4 && b[..4] == MAGIC
  }

  predicate Is64(b: Bytes)
    requires |b| >= 6
  {
    b[4] == 2
  }

  predicate IsLe(b: Bytes)
    requires |b| >= 6
  {
    b[5] == 1
  }

  /** Bytes of header a class needs: up to and including its program-header count. */
  function HeaderLen(b: Bytes): nat
    requires |b| >= 6
  {
    if Is64(b) then 58 else 46
  }

  datatype Table = Table(offset: nat, size: nat, count: nat)

  /** Program-header offset, entry size and count, from their places in the header. */
  function Locate(b: Bytes, is64: bool, le: bool): Table
    requires |b| >= if is64 then 58 else 46
  {
    if is64
    then Table(Value(b[32..40], le), Value(b[54..56], le), Value(b[56..58], le))
    else Table(Value(b[28..32], le), Value(b[42..44], le), Value(b[44..46], le))
  }

  /** The fields of `t` stand where the ELF header keeps them. */
  ghost predicate HeaderHolds(b: Bytes, is64: bool, le: bool, t: Table) {
    && |b| >= (if is64 then 58 else 46)
    && t.offset < Pow256(if is64 then 8 else 4) && t.size < Pow256(2) && t.count < Pow256(2)
    && if is64
       then b[32..40] == Encode(t.offset, 8, le) && b[54..56] == Encode(t.size, 2, le) && b[56..58] == Encode(t.count, 2, le)
       else b[28..32] == Encode(t.offset, 4, le) && b[42..44] == Encode(t.size, 2, le) && b[44..46] == Encode(t.count, 2, le)
  }

  /** Fields written where the ELF header keeps them are found again, in both classes and byte orders. */
  lemma LocateRoundTrip(b: Bytes, is64: bool, le: bool, t: Table)
    requires HeaderHolds(b, is64, le, t)
    ensures Locate(b, is64, le) == t
  {
    EncodeRoundTrip(t.offset, if is64 then 8 else 4, le);
    EncodeRoundTrip(t.size, 2, le);
    EncodeRoundTrip(t.count, 2, le);
  }

  // ------------------------------------------------------------------ what is asked

  /** Where the i-th entry begins. */
  function EntryStart(t: Table, i: nat): nat {
    t.offset + i * t.size
  }

  /** Entry `i` lies within the image and its type field says PT_INTERP. */
  predicate InterpAt(b: Bytes, le: bool, t: Table, i: nat) {
    && EntryStart(t, i) + 4 <= |b|
    && Value(b[EntryStart(t, i)..EntryStart(t, i) + 4], le) == PT_INTERP
  }

  predicate Inspectable(b: Bytes) {
    HasMagic(b) && |b| >= 6 && |b| >= HeaderLen(b)
  }

  /** The image names a dynamic linker in a program header that lies within it. */
  ghost predicate Linked(b: Bytes) {
    && Inspectable(b)
    && var t := Locate(b, Is64(b), IsLe(b));
       t.size > 0 && exists i :: 0 <= i < t.count && InterpAt(b, IsLe(b), t, i)
  }

  lemma WrittenEntry(b: Bytes, le: bool, t: Table, i: nat, kind: nat)
    requires EntryStart(t, i) + 4 <= |b| && kind < Pow256(4)
    requires b[EntryStart(t, i)..EntryStart(t, i) + 4] == Encode(kind, 4, le)
    ensures InterpAt(b, le, t, i) <==> kind == 3
  {
    EncodeRoundTrip(kind, 4, le);
  }

  /** Every entry that lies within the image starts with its type. */
  ghost predicate EntriesHold(b: Bytes, le: bool, t: Table, types: seq<nat>) {
    && |types| == t.count
    && forall i :: 0 <= i < t.count && EntryStart(t, i) + 4 <= |b| ==>
         types[i] < Pow256(4) && b[EntryStart(t, i)..EntryStart(t, i) + 4] == Encode(types[i], 4, le)
  }

  lemma WrittenEntries(b: Bytes, le: bool, t: Table, types: seq<nat>)
    requires EntriesHold(b, le, t, types)
    ensures (exists i :: 0 <= i < t.count && InterpAt(b, le, t, i))
       <==> exists i :: 0 <= i < t.count && EntryStart(t, i) + 4 <= |b| && types[i] == 3
  {
    forall i | 0 <= i < t.count ensures InterpAt(b, le, t, i) <==> EntryStart(t, i) + 4 <= |b| && types[i] == 3 {
      if EntryStart(t, i) + 4 <= |b| {
        WrittenEntry(b, le, t, i, types[i]);
      }
    }
  }

  lemma LinkedIs(b: Bytes, is64: bool, le: bool, t: Table)
    requires |b| >= (if is64 then 58 else 46) && b[..4] == [0x7f, 0x45, 0x4c, 0x46]
    requires (b[4] == 2 <==> is64) && (b[5] == 1 <==> le) && Locate(b, is64, le) == t && t.size > 0
    ensures Linked(b) <==> exists i :: 0 <= i < t.count && InterpAt(b, le, t, i)
  {
  }

  /**
   * An image written by the book, either class and byte order: with the fields in
   * their places and each in-bounds entry's type `types[i]` encoded at its start,
   * the image is linked exactly when some such entry's type is 3.
   */
  lemma WrittenImage(b: Bytes, is64: bool, le: bool, t: Table, types: seq<nat>)
    requires |b| >= 6 && b[..4] == [0x7f, 0x45, 0x4c, 0x46] && (b[4] == 2 <==> is64) && (b[5] == 1 <==> le)
    requires HeaderHolds(b, is64, le, t) && t.size > 0 && EntriesHold(b, le, t, types)
    ensures Linked(b) <==> exists i :: 0 <= i < t.count && EntryStart(t, i) + 4 <= |b| && types[i] == 3
  {
    LocateRoundTrip(b, is64, le, t);
    LinkedIs(b, is64, le, t);
    WrittenEntries(b, le, t, types);
  }

  /** The probe on bytes in memory; every index is checked, overflow included. */
  method IsDynamicallyLinkedBytes(b: Bytes) returns (r: bool)
    requires |b| <= USIZE_MAX
    ensures r == Linked(b)
  {
    if |b| < 6 || b[0..4] != MAGIC {
      return false;
    }
    var is64, le := b[4] == 2, b[5] == 1;
    var minLen := if is64 then 58 else 46;
    if |b| < minLen {
      return false;
    }
    var t := Locate(b, is64, le);
    if t.count == 0 || t.size == 0 {
      return false;
    }
    r := ScanImage(b, le, t);
  }

  lemma MulMono(i: nat, j: nat, size: nat)
    requires i <= j
    ensures i * size <= j * size
  {
  }

  lemma OutsideFrom(b: Bytes, le: bool, t: Table, i: nat)
    requires EntryStart(t, i) + 4 > |b|
    ensures forall j :: i <= j < t.count ==> !InterpAt(b, le, t, j)
  {
    forall j | i <= j < t.count ensures !InterpAt(b, le, t, j) {
      MulMono(i, j, t.size);
    }
  }

  /** The loop over the entries in memory: it stops at the first one outside the image. */
  method ScanImage(b: Bytes, le: bool, t: Table) returns (r: bool)
    requires |b| <= USIZE_MAX
    ensures r <==> exists i :: 0 <= i < t.count && InterpAt(b, le, t, i)
  {
    var i := 0;
    while i < t.count
      invariant 0 <= i <= t.count
      invariant forall j :: 0 <= j < i ==> !InterpAt(b, le, t, j)
    {
      var rel := i * t.size;
      var start := rel + t.offset;
      if rel > USIZE_MAX || start > USIZE_MAX || start + 4 > USIZE_MAX || start + 4 > |b| {
        OutsideFrom(b, le, t, i);
        return false;
      }
      if Value(b[start..start + 4], le) == PT_INTERP {
        assert InterpAt(b, le, t, i);
        return true;
      }
      i := i + 1;
    }
    r := false;
  }

  // ------------------------------------------------------------------- the file probe

  datatype File = Missing | Unreadable | Content(bytes: Bytes)

  /** `Panics` is an out-of-range slice. */
  datatype Outcome = Done(linked: bool) | Fails | Panics

  /** The header buffer: what the first read returned, zero-padded to 64 bytes. */
  function Buffer(b: Bytes, n: nat): (buf: Bytes)
    requires n <= |b| && n <= 64
    ensures |buf| == 64
  {
    b[..n] + seq(64 - n, _ => 0 as byte)
  }

  /** The table can be read whole. */
  predicate TableInFile(b: Bytes, t: Table) {
    t.offset + t.size * t.count <= |b|
  }

  /**
   * The probe on a file whose first read returns `n` bytes; `ioFails` stands for
   * any read or seek that fails. Whenever it answers, it answers what the
   * in-memory probe would, for every entry size. It fails exactly when a call
   * fails or a recognised header's table is cut off, and panics exactly when
   * the entries are shorter than a type field and no earlier one ends the search.
   */
  method IsDynamicallyLinked(file: File, n: nat, ioFails: bool) returns (r: Outcome)
    requires file.Content? ==> n <= |file.bytes| && n <= 64
    ensures file.Missing? ==> r == Done(false)
    ensures file.Unreadable? ==> r == Fails
    ensures file.Content? && r.Done? && (n == |file.bytes| || n == 64 || (n >= 6 && n >= HeaderLen(file.bytes)))
      ==> r.linked == Linked(file.bytes)
    ensures r.Fails? <==> file.Unreadable? || (file.Content? && (ioFails || (n >= 6 && TableCutOff(file.bytes, n))))
    ensures r.Panics? <==> file.Content? && n >= 6 && !ioFails && ShortEntriesPanic(file.bytes, n)
  {
    match file {
      case Missing => return Done(false);
      case Unreadable => return Fails;
      case Content(b) =>
        if ioFails {
          return Fails;
        }
        var t, le := ReadHeader(b, n);
        if t.None? || t.value.count == 0 || t.value.size == 0 {
          return Done(false);
        }
        if !TableInFile(b, t.value) {
          return Fails;
        }
        r := ScanTable(b, le, t.value);
    }
  }

  /** The header fields from the first `n` bytes, when they are an ELF header long enough for its class. */
  method ReadHeader(b: Bytes, n: nat) returns (t: Option<Table>, le: bool)
    requires n <= |b| && n <= 64
    ensures t.Some? <==> n >= 6 && HasMagic(b) && n >= HeaderLen(b)
    ensures t.Some? ==> le == IsLe(b) && t.value == Locate(b, Is64(b), le)
  {
    var buf := Buffer(b, n);
    BufferPrefix(b, n);
    var is64 := buf[4] == 2;
    le := buf[5] == 1;
    if buf[0..4] != MAGIC {
      return None, le;
    }
    var minLen := if is64 then 58 else 46;
    if n < minLen {
      return None, le;
    }
    LocateInBuffer(b, n, is64, le);
    t := Some(Locate(buf, is64, le));
  }

  lemma BufferPrefix(b: Bytes, n: nat)
    requires n <= |b| && n <= 64
    ensures forall i :: 0 <= i < n ==> Buffer(b, n)[i] == b[i]
    ensures forall i :: n <= i < 64 ==> Buffer(b, n)[i] == 0
    ensures n >= 4 ==> Buffer(b, n)[0..4] == b[..4]
    ensures n < 4 ==> Buffer(b, n)[0..4] != MAGIC
  {
    var buf := Buffer(b, n);
    if n < 4 {
      assert buf[0..4][3] == 0 && MAGIC[3] == 0x46;
    }
  }

  lemma LocateInBuffer(b: Bytes, n: nat, is64: bool, le: bool)
    requires n <= |b| && n <= 64 && n >= if is64 then 58 else 46
    ensures Locate(Buffer(b, n), is64, le) == Locate(b, is64, le)
  {
    var buf := Buffer(b, n);
    forall i, j | 0 <= i <= j <= n ensures buf[i..j] == b[i..j] {
    }
  }

  /** The header is whole and names a table the file does not hold. */
  ghost predicate TableCutOff(b: Bytes, n: nat)
    requires 6 <= n <= |b|
  {
    && HasMagic(b) && n >= HeaderLen(b)
    && var t := Locate(b, Is64(b), IsLe(b));
       t.size > 0 && t.count > 0 && !TableInFile(b, t)
  }

  /** The table is readable, an entry is shorter than a type field, and no entry read before it says PT_INTERP. */
  ghost predicate ShortEntriesPanic(b: Bytes, n: nat)
    requires 6 <= n <= |b|
  {
    && HasMagic(b) && n >= HeaderLen(b)
    && var t := Locate(b, Is64(b), IsLe(b));
       0 < t.size < 4 && t.count > 0 && TableInFile(b, t) && NoneInTable(b, IsLe(b), t)
  }

  /** A little-endian 32-bit header that declares one program-header entry of one byte. */
  const ONE_BYTE_ENTRY: Bytes := MAGIC + [1, 1] + seq(36, _ => 0) + [1, 0, 1, 0]

  /** Such an image makes the file probe index past its buffer, while the in-memory probe answers. */
  lemma OneByteEntryPanics()
    ensures |ONE_BYTE_ENTRY| == 46 && ShortEntriesPanic(ONE_BYTE_ENTRY, 46) && !Linked(ONE_BYTE_ENTRY)
  {
    var b := ONE_BYTE_ENTRY;
    assert b[..4] == MAGIC && b[4] == 1 && b[5] == 1;
    assert b[28..32] == [0, 0, 0, 0] && b[42..44] == [1, 0] && b[44..46] == [1, 0];
    SmallValues();
    assert Locate(b, false, true) == Table(0, 1, 1);
    assert b[0..4] == MAGIC && Value(MAGIC, true) != PT_INTERP;
  }

  lemma SmallValues()
    ensures Value([0, 0, 0, 0], true) == 0 && Value([1, 0], true) == 1 && Value(MAGIC, true) != PT_INTERP
  {
    assert [1 as byte, 0][1..] == [0] && [0 as byte][1..] == [];
    assert [0 as byte, 0, 0, 0][1..] == [0, 0, 0] && [0 as byte, 0, 0][1..] == [0, 0] && [0 as byte, 0][1..] == [0];
    assert LittleEndian([0 as byte]) == 0 && LittleEndian([0 as byte, 0]) == 0 && LittleEndian([0 as byte, 0, 0]) == 0;
    assert LittleEndian(MAGIC) == 0x7f + 256 * LittleEndian(MAGIC[1..]);
  }

  /** No type field that lies wholly within the table says PT_INTERP. */
  ghost predicate NoneInTable(b: Bytes, le: bool, t: Table) {
    forall i :: 0 <= i < t.count && i * t.size + 4 <= t.size * t.count ==> !InterpAt(b, le, t, i)
  }

  lemma SliceOfSlice(b: Bytes, offset: nat, len: nat, start: nat)
    requires offset + len <= |b| && start + 4 <= len
    ensures b[offset..offset + len][start..start + 4] == b[offset + start..offset + start + 4]
  {
    var part := b[offset..offset + len];
    var x, y := part[start..start + 4], b[offset + start..offset + start + 4];
    forall k | 0 <= k < 4 ensures x[k] == y[k] {
      assert x[k] == part[start + k];
    }
  }

  /** From an entry without room for a type field on, no entry has room, and entries are shorter than one. */
  lemma NoRoomFrom(t: Table, i: nat)
    requires i < t.count && i * t.size + 4 > t.size * t.count
    ensures t.size < 4 && forall j :: i <= j < t.count ==> j * t.size + 4 > t.size * t.count
  {
    EntryRoom(t, i);
    forall j | i <= j < t.count ensures j * t.size + 4 > t.size * t.count {
      MulMono(i, j, t.size);
    }
  }

  /** The loop over the table read from the file. */
  method ScanTable(b: Bytes, le: bool, t: Table) returns (r: Outcome)
    requires t.size > 0 && t.count > 0 && TableInFile(b, t)
    ensures r == Done(true) ==> exists i :: 0 <= i < t.count && InterpAt(b, le, t, i)
    ensures r == Done(false) ==> forall i :: 0 <= i < t.count ==> !InterpAt(b, le, t, i)
    ensures r.Panics? <==> t.size < 4 && NoneInTable(b, le, t)
    ensures !r.Fails?
  {
    var ph := b[t.offset..t.offset + t.size * t.count];
    var i := 0;
    while i < t.count
      invariant 0 <= i <= t.count
      invariant forall j :: 0 <= j < i ==> !InterpAt(b, le, t, j)
      invariant i > 0 ==> (i - 1) * t.size + 4 <= t.size * t.count
    {
      var start := i * t.size;
      if start + 4 > |ph| {
        NoRoomFrom(t, i);
        return Panics;
      }
      SliceOfSlice(b, t.offset, |ph|, start);
      if Value(ph[start..start + 4], le) == PT_INTERP {
        EntryRoom(t, i);
        assert InterpAt(b, le, t, i);
        return Done(true);
      }
      i := i + 1;
    }
    LastEntryRoom(t);
    r := Done(false);
  }

  /** Room in the last entry means entries of four bytes or more. */
  lemma LastEntryRoom(t: Table)
    requires t.count > 0
    ensures (t.count - 1) * t.size + 4 <= t.size * t.count ==> t.size >= 4
  {
    assert (t.count - 1) * t.size == t.count * t.size - t.size;
  }

  /** Entries of four bytes or more always leave room for a type field. */
  lemma EntryRoom(t: Table, i: nat)
    requires i < t.count
    ensures t.size >= 4 ==> i * t.size + 4 <= t.size * t.count
    ensures i * t.size <= t.size * t.count
  {
    assert (i + 1) * t.size <= t.count * t.size;
  }
}
