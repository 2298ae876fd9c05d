/**
 * The scene baker of memprep.h: `bake_into_memory` lays the scene's objects
 * out in one flat buffer, one fixed-size record per object, so that the
 * renderer can read them with plain offsets.
 *
 * Float payloads are opaque here: each field is the sequence of bytes that
 * the object holds for it (16 for a vector, 4 for a float), and `memcpy`
 * copies them unchanged.
 */
module MemPrep {
  import opened Wrappers

  newtype byte = x: int | 0 <= x < 256

  /** Bytes per object record. */
  const Stride: nat := 108

  /** The object kind whose record also carries the plane frame. */
  const PlaneType: int := 1

  /** The bytes of an object's fields, as `memcpy` sees them. */
  datatype ObjectImage = ObjectImage(
    objectType: int,        // the value `object_type` compares against
    typeBytes: seq<byte>,   // its in-memory representation, first byte first
    position: seq<byte>,
    scale: seq<byte>,
    normal: seq<byte>,
    localX: seq<byte>,
    localY: seq<byte>,
    color: seq<byte>,
    intensity: seq<byte>,
    diffuse: seq<byte>)

  /** The fields a record holds. */
  datatype Field = ObjectType | Position | Scale | Normal | LocalX | LocalY | Color | Intensity | Diffuse

  /** Where each `memcpy` writes, relative to the record's start. */
  function Offset(f: Field): nat
  {
    match f
    case ObjectType => 0
    case Position => 4
    case Scale => 20
    case Normal => 36
    case LocalX => 52
    case LocalY => 68
    case Color => 84
    case Intensity => 100
    case Diffuse => 104
  }

  /** How many bytes each `memcpy` copies. */
  function Width(f: Field): nat
  {
    match f
    case ObjectType => 1
    case Intensity => 4
    case Diffuse => 4
    case _ => 16
  }

  /** The bytes a field's `memcpy` copies: one byte of the type, all of every other field. */
  function Source(o: ObjectImage, f: Field): (r: seq<byte>)
    requires WellSized(o)
    ensures |r| == Width(f)
  {
    match f
    case ObjectType => o.typeBytes[..1]
    case Position => o.position
    case Scale => o.scale
    case Normal => o.normal
    case LocalX => o.localX
    case LocalY => o.localY
    case Color => o.color
    case Intensity => o.intensity
    case Diffuse => o.diffuse
  }

  /** Every field has the bytes its `memcpy` reads. */
  predicate WellSized(o: ObjectImage)
  {
    |o.typeBytes| >= 1 && |o.position| == 16 && |o.scale| == 16 &&
    |o.normal| == 16 && |o.localX| == 16 && |o.localY| == 16 &&
    |o.color| == 16 && |o.intensity| == 4 && |o.diffuse| == 4
  }

  /** Normal, local X and local Y are written for planes only. */
  predicate Writes(o: ObjectImage, f: Field)
  {
    (f == Normal || f == LocalX || f == LocalY) ==> o.objectType == PlaneType
  }

  /** The field that covers byte `k` of a record, if any: the layout read byte by byte. */
  function FieldAt(k: nat): Option<Field>
  {
    if k == 0 then Some(ObjectType)
    else if k < 4 then None
    else if k < 20 then Some(Position)
    else if k < 36 then Some(Scale)
    else if k < 52 then Some(Normal)
    else if k < 68 then Some(LocalX)
    else if k < 84 then Some(LocalY)
    else if k < 100 then Some(Color)
    else if k < 104 then Some(Intensity)
    else if k < Stride then Some(Diffuse)
    else None
  }

  /**
   * Byte `k` of the record of `o`, where `before` is what the buffer held
   * there: the field's byte if a field written for `o` covers it, else `before`.
   */
  function RecordByte(o: ObjectImage, k: nat, before: byte): byte
    requires WellSized(o)
  {
    match FieldAt(k)
    case Some(f) =>
      if Writes(o, f) then
        assert k - Offset(f) < Width(f) by { FieldAtCovers(k, f); }
        Source(o, f)[k - Offset(f)]
      else before
    case None => before
  }

  /** The buffer after baking `objects` into memory that held `init`. */
  function Baked(objects: seq<ObjectImage>, init: seq<byte>): (r: seq<byte>)
    requires |init| == Stride * |objects|
    requires forall i | 0 <= i < |objects| :: WellSized(objects[i])
    ensures |r| == |init|
  {
    seq(|init|, j requires 0 <= j < |init| =>
      assert j / Stride < |objects| by { RecordOf(j, |objects|); }
      RecordByte(objects[j / Stride], j % Stride, init[j]))
  }

  // ---------------------------------------------------------------------------
  // The layout
  // ---------------------------------------------------------------------------

  /** Byte `j` of the buffer lies in record `j / Stride`, which exists. */
  lemma RecordOf(j: nat, count: nat)
    requires j < Stride * count
    ensures j / Stride < count && Stride * (j / Stride) + j % Stride == j
  {
  }

  /** The byte-by-byte layout and the offset table agree: `f` covers `k` exactly when `FieldAt(k)` names it. */
  lemma FieldAtCovers(k: nat, f: Field)
    ensures FieldAt(k) == Some(f) <==> Offset(f) <= k < Offset(f) + Width(f)
  {
  }

  /** Every field lies inside the record. */
  lemma FieldInside(f: Field)
    ensures Offset(f) + Width(f) <= Stride
  {
  }

  /** The field ranges are pairwise disjoint. */
  lemma FieldsDisjoint(f: Field, g: Field, k: nat)
    requires Offset(f) <= k < Offset(f) + Width(f)
    requires Offset(g) <= k < Offset(g) + Width(g)
    ensures f == g
  {
    FieldAtCovers(k, f);
    FieldAtCovers(k, g);
  }

  /** Bytes 1 to 3 of a record belong to no field. */
  lemma PaddingUncovered(k: nat)
    requires 1 <= k < 4
    ensures FieldAt(k) == None
  {
  }

  // ---------------------------------------------------------------------------
  // Properties of the baked buffer
  // ---------------------------------------------------------------------------

  /**
   * Record `i` occupies bytes `[Stride * i, Stride * i + Stride)` and is made
   * from `objects[i]` and what those bytes held before, and from nothing else.
   */
  lemma RecordSlice(objects: seq<ObjectImage>, init: seq<byte>, i: nat)
    requires |init| == Stride * |objects|
    requires forall i | 0 <= i < |objects| :: WellSized(objects[i])
    requires i < |objects|
    ensures Stride * i + Stride <= |init|
    ensures forall j | Stride * i <= j < Stride * i + Stride ::
      Baked(objects, init)[j] == RecordByte(objects[i], j - Stride * i, init[j])
  {
    forall j | Stride * i <= j < Stride * i + Stride
      ensures Baked(objects, init)[j] == RecordByte(objects[i], j - Stride * i, init[j])
    {
      BakedByte(objects, init, i, j - Stride * i, j);
    }
  }

  /** Byte `k` of record `i`. */
  lemma BakedByte(objects: seq<ObjectImage>, init: seq<byte>, i: nat, k: nat, j: nat)
    requires |init| == Stride * |objects|
    requires forall i | 0 <= i < |objects| :: WellSized(objects[i])
    requires i < |objects| && k < Stride && j == Stride * i + k
    ensures j < |init| && Baked(objects, init)[j] == RecordByte(objects[i], k, init[j])
  {
    RecordIndex(i, k, |objects|);
  }

  lemma RecordIndex(i: nat, k: nat, count: nat)
    requires i < count && k < Stride
    ensures Stride * i + k < Stride * count
    ensures (Stride * i + k) / Stride == i && (Stride * i + k) % Stride == k
  {
  }

  /** A byte outside record `i` belongs to another record. */
  lemma OutsideRecord(i: nat, j: nat)
    requires !(Stride * i <= j < Stride * i + Stride)
    ensures j / Stride != i
  {
  }

  /** Byte `k` of a field written for `o` is byte `k` of the field's bytes. */
  lemma InField(o: ObjectImage, f: Field, k: nat, before: byte)
    requires WellSized(o) && Writes(o, f) && k < Width(f)
    ensures RecordByte(o, Offset(f) + k, before) == Source(o, f)[k]
  {
    FieldAtCovers(Offset(f) + k, f);
  }

  /** Each field written for record `i` holds exactly the bytes the object has for it. */
  lemma FieldPlaced(objects: seq<ObjectImage>, init: seq<byte>, i: nat, f: Field)
    requires |init| == Stride * |objects|
    requires forall i | 0 <= i < |objects| :: WellSized(objects[i])
    requires i < |objects| && Writes(objects[i], f)
    ensures Stride * i + Offset(f) + Width(f) <= |init|
    ensures Baked(objects, init)[Stride * i + Offset(f)..Stride * i + Offset(f) + Width(f)] == Source(objects[i], f)
  {
    FieldInside(f);
    RecordIndex(i, Stride - 1, |objects|);
    var start := Stride * i + Offset(f);
    FieldBytes(objects, init, i, f, start);
    var placed := Baked(objects, init)[start..start + Width(f)];
    assert forall k | 0 <= k < Width(f) :: placed[k] == Baked(objects, init)[start + k];
  }

  lemma FieldBytes(objects: seq<ObjectImage>, init: seq<byte>, i: nat, f: Field, start: nat)
    requires |init| == Stride * |objects|
    requires forall i | 0 <= i < |objects| :: WellSized(objects[i])
    requires i < |objects| && Writes(objects[i], f) && start == Stride * i + Offset(f)
    ensures start + Width(f) <= |init|
    ensures forall k | 0 <= k < Width(f) :: Baked(objects, init)[start + k] == Source(objects[i], f)[k]
  {
    FieldInside(f);
    RecordIndex(i, Stride - 1, |objects|);
    forall k | 0 <= k < Width(f)
      ensures Baked(objects, init)[start + k] == Source(objects[i], f)[k]
    {
      var j := start + k;
      BakedByte(objects, init, i, Offset(f) + k, j);
      InField(objects[i], f, k, init[j]);
    }
  }

  /** Bytes 1 to 3 of every record keep what the buffer held. */
  lemma PaddingKept(objects: seq<ObjectImage>, init: seq<byte>, i: nat, k: nat)
    requires |init| == Stride * |objects|
    requires forall i | 0 <= i < |objects| :: WellSized(objects[i])
    requires i < |objects| && 1 <= k < 4
    ensures Stride * i + k < |init| && Baked(objects, init)[Stride * i + k] == init[Stride * i + k]
  {
    RecordSlice(objects, init, i);
  }

  /** A record of any other kind than a plane keeps what bytes 36 to 83 held. */
  lemma PlaneFieldsSkipped(objects: seq<ObjectImage>, init: seq<byte>, i: nat, k: nat)
    requires |init| == Stride * |objects|
    requires forall i | 0 <= i < |objects| :: WellSized(objects[i])
    requires i < |objects| && objects[i].objectType != PlaneType && 36 <= k < 84
    ensures Stride * i + k < |init| && Baked(objects, init)[Stride * i + k] == init[Stride * i + k]
  {
    RecordSlice(objects, init, i);
  }

  /**
   * Replacing object `i` changes only the bytes of record `i`: the bytes of
   * every other record are the same.
   */
  lemma OtherRecordsUnchanged(objects: seq<ObjectImage>, init: seq<byte>, i: nat, o: ObjectImage, j: nat)
    requires |init| == Stride * |objects|
    requires forall i | 0 <= i < |objects| :: WellSized(objects[i])
    requires i < |objects| && WellSized(o)
    requires j < |init| && !(Stride * i <= j < Stride * i + Stride)
    ensures Baked(objects[i := o], init)[j] == Baked(objects, init)[j]
  {
    RecordOf(j, |objects|);
    OutsideRecord(i, j);
  }

  // ---------------------------------------------------------------------------
  // bake_into_memory
  // ---------------------------------------------------------------------------

  /**
   * `bake_into_memory`. `garbage` stands for what `aligned_alloc` hands back,
   * which is not initialised; its size must be a multiple of the alignment.
   */
  method BakeIntoMemory(objects: seq<ObjectImage>, garbage: seq<byte>) returns (memory: array<byte>)
    requires |garbage| == Stride * |objects| && (Stride * |objects|) % 16 == 0
    requires forall i | 0 <= i < |objects| :: WellSized(objects[i])
    ensures fresh(memory)
    ensures memory[..] == Baked(objects, garbage)
  {
    memory := new byte[|garbage|](j requires 0 <= j < |garbage| => garbage[j]);
    for i := 0 to |objects|
      invariant memory[..] == BakedUpTo(objects, garbage, i)
    {
      RecordIndex(i, Stride - 1, |objects|);
      WriteRecord(memory, Stride * i, objects[i]);
      BakeStep(objects, garbage, i, memory[..]);
    }
    assert memory[..] == Baked(objects, garbage);
  }

  /** The buffer once the first `n` records are written. */
  ghost function BakedUpTo(objects: seq<ObjectImage>, init: seq<byte>, n: nat): (r: seq<byte>)
    requires |init| == Stride * |objects|
    requires forall i | 0 <= i < |objects| :: WellSized(objects[i])
    ensures |r| == |init|
  {
    seq(|init|, j requires 0 <= j < |init| => if j < Stride * n then Baked(objects, init)[j] else init[j])
  }

  /** Writing record `i` over the first `i` records gives the first `i + 1`. */
  lemma BakeStep(objects: seq<ObjectImage>, init: seq<byte>, i: nat, now: seq<byte>)
    requires |init| == Stride * |objects|
    requires forall i | 0 <= i < |objects| :: WellSized(objects[i])
    requires i < |objects|
    requires WrittenUpTo(now, BakedUpTo(objects, init, i), Stride * i, objects[i], Stride)
    ensures now == BakedUpTo(objects, init, i + 1)
  {
    RecordSlice(objects, init, i);
    var next := BakedUpTo(objects, init, i + 1);
    forall j | 0 <= j < |now|
      ensures now[j] == next[j]
    {
    }
  }

  /**
   * `now` holds the first `end` bytes of the record of `o` at `start`, made
   * over `before`, and `before` everywhere else.
   */
  ghost predicate WrittenUpTo(now: seq<byte>, before: seq<byte>, start: nat, o: ObjectImage, end: nat)
    requires WellSized(o)
  {
    |now| == |before| &&
    forall j | 0 <= j < |now| ::
      now[j] == if start <= j < start + end then RecordByte(o, j - start, before[j]) else before[j]
  }

  /** No field written for `o` covers a byte in `[from, to)`. */
  predicate Unwritten(o: ObjectImage, from: nat, to: nat)
  {
    forall k | from <= k < to :: FieldAt(k) == None || !Writes(o, FieldAt(k).value)
  }

  /** `now` is `before` with `chunk` copied in at `at`. */
  ghost predicate Copied(now: seq<byte>, before: seq<byte>, at: nat, chunk: seq<byte>)
  {
    |now| == |before| &&
    forall j | 0 <= j < |now| :: now[j] == if at <= j < at + |chunk| then chunk[j - at] else before[j]
  }

  /**
   * Copying field `f` of `o` into a record written up to `from` writes it up
   * to the end of `f`, when nothing written for `o` lies between.
   */
  lemma WriteField(before: seq<byte>, mid: seq<byte>, now: seq<byte>, start: nat, o: ObjectImage, f: Field, from: nat)
    requires WellSized(o) && Writes(o, f)
    requires from <= Offset(f) && Unwritten(o, from, Offset(f))
    requires WrittenUpTo(mid, before, start, o, from)
    requires Copied(now, mid, start + Offset(f), Source(o, f))
    ensures WrittenUpTo(now, before, start, o, Offset(f) + Width(f))
  {
    forall j | 0 <= j < |now| && start + from <= j < start + Offset(f) + Width(f)
      ensures now[j] == RecordByte(o, j - start, before[j])
    {
      FieldAtCovers(j - start, f);
    }
  }

  /** `before` with `chunk` copied in at `at`. */
  function Splice(before: seq<byte>, at: nat, chunk: seq<byte>): (r: seq<byte>)
    requires at + |chunk| <= |before|
    ensures Copied(r, before, at, chunk)
  {
    before[..at] + chunk + before[at + |chunk|..]
  }

  /** The first three `memcpy` calls of one turn of the loop: type, position, scale. */
  function HeadCopies(before: seq<byte>, start: nat, o: ObjectImage): (r: seq<byte>)
    requires WellSized(o) && start + Stride <= |before|
    ensures |r| == |before|
  {
    Splice(Splice(Splice(before, start, o.typeBytes[..1]), start + 4, o.position), start + 20, o.scale)
  }

  /** The plane-only `memcpy` calls: normal, local X, local Y. */
  function FrameCopies(head: seq<byte>, start: nat, o: ObjectImage): (r: seq<byte>)
    requires WellSized(o) && start + Stride <= |head|
    ensures |r| == |head|
  {
    if o.objectType == PlaneType then
      Splice(Splice(Splice(head, start + 36, o.normal), start + 52, o.localX), start + 68, o.localY)
    else head
  }

  /** The material `memcpy` calls: colour, intensity, diffuse. */
  function MaterialCopies(frame: seq<byte>, start: nat, o: ObjectImage): (r: seq<byte>)
    requires WellSized(o) && start + Stride <= |frame|
    ensures |r| == |frame|
  {
    Splice(Splice(Splice(frame, start + 84, o.color), start + 100, o.intensity), start + 104, o.diffuse)
  }

  /** The `memcpy` calls of one turn of the loop, in the order `bake_into_memory` makes them. */
  function Memcpys(before: seq<byte>, start: nat, o: ObjectImage): seq<byte>
    requires WellSized(o) && start + Stride <= |before|
  {
    MaterialCopies(FrameCopies(HeadCopies(before, start, o), start, o), start, o)
  }

  lemma HeadWritten(before: seq<byte>, start: nat, o: ObjectImage)
    requires WellSized(o) && start + Stride <= |before|
    ensures WrittenUpTo(HeadCopies(before, start, o), before, start, o, 36)
  {
    var m1 := Splice(before, start, o.typeBytes[..1]);
    WriteField(before, before, m1, start, o, ObjectType, 0);
    var m2 := Splice(m1, start + 4, o.position);
    WriteField(before, m1, m2, start, o, Position, 1);
    WriteField(before, m2, Splice(m2, start + 20, o.scale), start, o, Scale, 20);
  }

  lemma FrameWritten(before: seq<byte>, head: seq<byte>, start: nat, o: ObjectImage)
    requires WellSized(o) && start + Stride <= |before|
    requires WrittenUpTo(head, before, start, o, 36)
    ensures WrittenUpTo(FrameCopies(head, start, o), before, start, o, 84)
  {
    if o.objectType == PlaneType {
      var m4 := Splice(head, start + 36, o.normal);
      WriteField(before, head, m4, start, o, Normal, 36);
      var m5 := Splice(m4, start + 52, o.localX);
      WriteField(before, m4, m5, start, o, LocalX, 52);
      WriteField(before, m5, Splice(m5, start + 68, o.localY), start, o, LocalY, 68);
    } else {
      SkipFrame(before, head, start, o);
    }
  }

  /** Bytes 36 to 83 of anything but a plane keep what they held. */
  lemma SkipFrame(before: seq<byte>, head: seq<byte>, start: nat, o: ObjectImage)
    requires WellSized(o) && o.objectType != PlaneType
    requires WrittenUpTo(head, before, start, o, 36)
    ensures WrittenUpTo(head, before, start, o, 84)
  {
    forall j | 0 <= j < |head| && start + 36 <= j < start + 84
      ensures head[j] == RecordByte(o, j - start, before[j])
    {
    }
  }

  lemma MaterialWritten(before: seq<byte>, frame: seq<byte>, start: nat, o: ObjectImage)
    requires WellSized(o) && start + Stride <= |before|
    requires WrittenUpTo(frame, before, start, o, 84)
    ensures WrittenUpTo(MaterialCopies(frame, start, o), before, start, o, Stride)
  {
    var m7 := Splice(frame, start + 84, o.color);
    WriteField(before, frame, m7, start, o, Color, 84);
    var m8 := Splice(m7, start + 100, o.intensity);
    WriteField(before, m7, m8, start, o, Intensity, 100);
    WriteField(before, m8, Splice(m8, start + 104, o.diffuse), start, o, Diffuse, 104);
  }

  /** Those calls write the record of `o` at `start` and nothing else. */
  lemma MemcpysWriteRecord(before: seq<byte>, start: nat, o: ObjectImage)
    requires WellSized(o) && start + Stride <= |before|
    ensures WrittenUpTo(Memcpys(before, start, o), before, start, o, Stride)
  {
    var head := HeadCopies(before, start, o);
    HeadWritten(before, start, o);
    var frame := FrameCopies(head, start, o);
    FrameWritten(before, head, start, o);
    MaterialWritten(before, frame, start, o);
  }

  /** The body of the loop of `bake_into_memory`: the record of `o` written at `start`. */
  method WriteRecord(memory: array<byte>, start: nat, o: ObjectImage)
    requires WellSized(o) && start + Stride <= memory.Length
    modifies memory
    ensures memory[..] == Memcpys(old(memory[..]), start, o)
    ensures WrittenUpTo(memory[..], old(memory[..]), start, o, Stride)
  {
    MemcpysWriteRecord(memory[..], start, o);
    Copy(memory, start, o.typeBytes[..1]);
    Copy(memory, start + 4, o.position);
    Copy(memory, start + 20, o.scale);
    if o.objectType == PlaneType {
      Copy(memory, start + 36, o.normal);
      Copy(memory, start + 52, o.localX);
      Copy(memory, start + 68, o.localY);
    }
    Copy(memory, start + 84, o.color);
    Copy(memory, start + 100, o.intensity);
    Copy(memory, start + 104, o.diffuse);
  }

  /** `memcpy(memory + at, chunk, |chunk|)`. */
  method Copy(memory: array<byte>, at: nat, chunk: seq<byte>)
    requires at + |chunk| <= memory.Length
    modifies memory
    ensures memory[..] == Splice(old(memory[..]), at, chunk)
  {
    forall j | at <= j < at + |chunk| {
      memory[j] := chunk[j - at];
    }
    assert memory[..] == Splice(old(memory[..]), at, chunk);
  }
}
