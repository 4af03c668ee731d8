/** Little-endian values and fixed text fields in a byte buffer. */
module Wire {
  import opened Sequences
  import opened Utf8

  type U16 = x: int | 0 <= x < 0x1_0000
  type U32 = x: int | 0 <= x < 0x1_0000_0000
  type U64 = x: int | 0 <= x < 0x1_0000_0000_0000_0000
  type I32 = x: int | -0x8000_0000 <= x < 0x8000_0000
  type I64 = x: int | -0x8000_0000_0000_0000 <= x < 0x8000_0000_0000_0000

  /** The values n bytes can hold. */
  function Power(n: nat): (p: nat)
    ensures p > 0
  {
    if n == 0 then 1 else 256 * Power(n - 1)
  }

  /** Shifted right by n bytes. */
  function Lowered(value: nat, n: nat): nat {
    if n == 0 then value else Lowered(value, n - 1) / 256
  }

  /** Shifted left by n bytes. */
  function Raised(value: nat, n: nat): nat {
    if n == 0 then value else 256 * Raised(value, n - 1)
  }

  /** Two's complement in a word of n bytes. */
  function Unsigned(value: int, n: nat): int {
    if value < 0 then value + Power(n) else value
  }

  function Signed(raw: int, n: nat): int {
    if raw >= Power(n) / 2 then raw - Power(n) else raw
  }

  /** The lowest n bytes of a value, lowest first. */
  function ToBytes(value: nat, n: nat): (s: Bytes)
    ensures |s| == n
  {
    seq(n, i requires 0 <= i < n => Lowered(value, i) % 256)
  }

  function FromBytes(s: Bytes): nat {
    if s == [] then 0 else s[0] + 256 * FromBytes(s[1..])
  }

  lemma {:induction false} LoweredOnce(value: nat, n: nat)
    ensures Lowered(value, n + 1) == Lowered(value / 256, n)
  {
    if n > 0 {
      LoweredOnce(value, n - 1);
    }
  }

  lemma ToBytesOn(value: nat, n: nat)
    requires n > 0
    ensures ToBytes(value, n) == [value % 256] + ToBytes(value / 256, n - 1)
  {
    var a, b := ToBytes(value, n), [value % 256] + ToBytes(value / 256, n - 1);
    forall i | 0 <= i < n
      ensures a[i] == b[i]
    {
      if i > 0 {
        LoweredOnce(value, i - 1);
      }
    }
  }

  /** A value that fits comes back from its bytes. */
  lemma {:induction false} BytesComeBack(value: nat, n: nat)
    requires value < Power(n)
    ensures FromBytes(ToBytes(value, n)) == value
    decreases n
  {
    if n > 0 {
      ToBytesOn(value, n);
      assert ToBytes(value, n)[1..] == ToBytes(value / 256, n - 1);
      BytesComeBack(value / 256, n - 1);
    }
  }

  lemma Powers()
    ensures Power(1) == 0x100 && Power(2) == 0x1_0000 && Power(4) == 0x1_0000_0000
    ensures Power(8) == 0x1_0000_0000_0000_0000
  {
    assert Power(2) == 256 * Power(1);
    assert Power(3) == 256 * Power(2);
    assert Power(4) == 256 * Power(3);
    assert Power(5) == 256 * Power(4);
    assert Power(6) == 256 * Power(5);
    assert Power(7) == 256 * Power(6);
  }

  lemma {:induction false} FromBytesFits(s: Bytes)
    ensures FromBytes(s) < Power(|s|)
    decreases |s|
  {
    if s != [] {
      FromBytesFits(s[1..]);
    }
  }

  lemma {:induction false} FromBytesOn(s: Bytes, b: Byte)
    ensures FromBytes(s + [b]) == FromBytes(s) + Raised(b, |s|)
    decreases |s|
  {
    if s == [] {
      assert [b][1..] == [];
    } else {
      assert (s + [b])[1..] == s[1..] + [b];
      FromBytesOn(s[1..], b);
    }
  }

  // ----- text fields

  function Zeros(n: nat): (s: Bytes)
    ensures |s| == n && forall k :: 0 <= k < n ==> s[k] == 0
  {
    seq(n, i => 0)
  }

  /** A field of `size` bytes: the text cut to fit, and zeros after it, at least one. */
  function TextField(text: Bytes, size: nat): (s: Bytes)
    ensures |s| == size
  {
    if size == 0 then []
    else
      var fitted := Fit(text, size - 1);
      fitted + Zeros(size - |fitted|)
  }

  /** The longest prefix without a zero. */
  function UntilNul(s: Bytes): (t: Bytes)
    ensures t <= s && forall k :: 0 <= k < |t| ==> t[k] != 0
    ensures |t| < |s| ==> s[|t|] == 0
  {
    if s == [] || s[0] == 0 then [] else [s[0]] + UntilNul(s[1..])
  }

  /** What is left of a text that went through a field of this size. */
  function CutText(text: Bytes, size: nat): Bytes
    requires size > 0
  {
    UntilNul(Fit(text, size - 1))
  }

  // ----- writing

  /** The buffer with the data at the offset; data that would not fit changes nothing. */
  function Put(b: Bytes, offset: nat, data: Bytes): (r: Bytes)
    ensures |r| == |b|
  {
    if offset + |data| <= |b| then b[..offset] + data + b[offset + |data|..] else b
  }

  /** The buffer starts with `image` and is still zero after it. */
  predicate Filled(b: Bytes, image: Bytes) {
    |image| <= |b| && b == image + Zeros(|b| - |image|)
  }

  /** Data put right after the image makes the image longer. */
  ghost predicate Extends(before: Bytes, later: Bytes, offset: nat, data: Bytes) {
    forall image {:trigger Filled(before, image)} ::
      Filled(before, image) && |image| == offset && offset + |data| <= |before| ==> Filled(later, image + data)
  }

  lemma PutExtends(b: Bytes, offset: nat, data: Bytes)
    ensures Extends(b, Put(b, offset, data), offset, data)
  {
    forall image | Filled(b, image) && |image| == offset && offset + |data| <= |b|
      ensures Filled(Put(b, offset, data), image + data)
    {
      assert b[..offset] == image;
      assert Put(b, offset, data) == (image + data) + Zeros(|b| - |image + data|);
    }
  }

  lemma PutNothing(b: Bytes, offset: nat, data: Bytes)
    requires data == [] || offset + |data| > |b|
    ensures Put(b, offset, data) == b
  {}

  lemma ClearThenCopy(b: Bytes, offset: nat, size: nat, data: Bytes)
    requires offset + size <= |b| && |data| <= size
    ensures Put(Put(b, offset, Zeros(size)), offset, data) == Put(b, offset, data + Zeros(size - |data|))
  {}

  /** Bytes that are skipped stay zero. */
  lemma Pad(b: Bytes, image: Bytes, n: nat)
    requires Filled(b, image) && |image| + n <= |b|
    ensures Filled(b, image + Zeros(n))
  {
    assert image + Zeros(|b| - |image|) == (image + Zeros(n)) + Zeros(|b| - |image + Zeros(n)|);
  }

  lemma NothingFilled(size: nat)
    ensures Filled(Zeros(size), [])
  {
    assert Zeros(size) == [] + Zeros(size);
  }

  lemma FilledWhole(b: Bytes, image: Bytes)
    requires Filled(b, image) && |image| == |b|
    ensures b == image
  {}

  class WireWriter {
    var bytes: array<Byte>

    constructor (size: nat)
      ensures fresh(bytes) && bytes[..] == Zeros(size)
    {
      bytes := new Byte[size](i => 0);
    }

    method PutBytes(offset: nat, value: nat, count: nat)
      modifies bytes
      ensures bytes[..] == Put(old(bytes[..]), offset, ToBytes(value, count))
      ensures Extends(old(bytes[..]), bytes[..], offset, ToBytes(value, count))
    {
      PutExtends(bytes[..], offset, ToBytes(value, count));
      if offset > bytes.Length || count > bytes.Length - offset {
        return;
      }
      for i := 0 to count
        invariant forall k :: 0 <= k < bytes.Length ==>
                    bytes[k] == if offset <= k < offset + i then Lowered(value, k - offset) % 256 else old(bytes[k])
      {
        bytes[offset + i] := Lowered(value, i) % 256;
      }
      ghost var put := Put(old(bytes[..]), offset, ToBytes(value, count));
      assert forall k :: 0 <= k < bytes.Length ==> bytes[..][k] == put[k];
    }

    method PutU8(offset: nat, value: Byte)
      modifies bytes
      ensures bytes[..] == Put(old(bytes[..]), offset, ToBytes(value, 1))
      ensures Extends(old(bytes[..]), bytes[..], offset, ToBytes(value, 1))
    {
      PutBytes(offset, value, 1);
    }

    method PutU16(offset: nat, value: U16)
      modifies bytes
      ensures bytes[..] == Put(old(bytes[..]), offset, ToBytes(value, 2))
      ensures Extends(old(bytes[..]), bytes[..], offset, ToBytes(value, 2))
    {
      PutBytes(offset, value, 2);
    }

    method PutU32(offset: nat, value: U32)
      modifies bytes
      ensures bytes[..] == Put(old(bytes[..]), offset, ToBytes(value, 4))
      ensures Extends(old(bytes[..]), bytes[..], offset, ToBytes(value, 4))
    {
      PutBytes(offset, value, 4);
    }

    method PutU64(offset: nat, value: U64)
      modifies bytes
      ensures bytes[..] == Put(old(bytes[..]), offset, ToBytes(value, 8))
      ensures Extends(old(bytes[..]), bytes[..], offset, ToBytes(value, 8))
    {
      PutBytes(offset, value, 8);
    }

    method PutI32(offset: nat, value: I32)
      modifies bytes
      ensures bytes[..] == Put(old(bytes[..]), offset, Int32Bytes(value))
      ensures Extends(old(bytes[..]), bytes[..], offset, Int32Bytes(value))
    {
      Powers();
      PutBytes(offset, Unsigned(value, 4), 4);
    }

    method PutI64(offset: nat, value: I64)
      modifies bytes
      ensures bytes[..] == Put(old(bytes[..]), offset, Int64Bytes(value))
      ensures Extends(old(bytes[..]), bytes[..], offset, Int64Bytes(value))
    {
      Powers();
      PutBytes(offset, Unsigned(value, 8), 8);
    }

    method PutText(offset: nat, fieldSize: nat, text: Bytes)
      modifies bytes
      ensures bytes[..] == Put(old(bytes[..]), offset, TextField(text, fieldSize))
      ensures Extends(old(bytes[..]), bytes[..], offset, TextField(text, fieldSize))
    {
      hide Put, Extends;
      PutExtends(bytes[..], offset, TextField(text, fieldSize));
      if fieldSize == 0 || offset > bytes.Length || fieldSize > bytes.Length - offset {
        PutNothing(bytes[..], offset, TextField(text, fieldSize));
        return;
      }
      var fitted := FitUtf8(text, fieldSize - 1);
      ClearThenCopy(bytes[..], offset, fieldSize, fitted);
      Copy(offset, Zeros(fieldSize));
      Copy(offset, fitted);
    }

    method Copy(offset: nat, data: Bytes)
      requires offset + |data| <= bytes.Length
      modifies bytes
      ensures bytes[..] == Put(old(bytes[..]), offset, data)
    {
      for i := 0 to |data|
        invariant forall k :: 0 <= k < bytes.Length ==>
                    bytes[k] == if offset <= k < offset + i then data[k - offset] else old(bytes[k])
      {
        bytes[offset + i] := data[i];
      }
      ghost var put := Put(old(bytes[..]), offset, data);
      assert forall k :: 0 <= k < bytes.Length ==> bytes[..][k] == put[k];
    }

    /** Gives the buffer away. */
    method TakeBytes() returns (r: Bytes)
      modifies this
      ensures r == old(bytes[..]) && bytes.Length == 0
    {
      r := bytes[..];
      bytes := new Byte[0];
    }
  }

  function Int32Bytes(value: I32): (s: Bytes)
    ensures |s| == 4
  {
    Powers();
    ToBytes(Unsigned(value, 4), 4)
  }

  function Int64Bytes(value: I64): (s: Bytes)
    ensures |s| == 8
  {
    Powers();
    ToBytes(Unsigned(value, 8), 8)
  }

  // ----- reading

  /** A part of a buffer that is only read. */
  datatype WireReader = WireReader(bytes: Bytes, base: nat, size: nat) {
    /** The size of the part, clipped to the buffer. */
    function Size(): (n: nat)
      ensures n > 0 ==> base + n <= |bytes|
    {
      if base >= |bytes| then 0 else Least(size, |bytes| - base)
    }

    /** An unsigned value of n bytes; zero when it does not lie within the part. */
    function Number(offset: nat, n: nat): nat {
      if n == 0 || offset + n > Size() then 0 else FromBytes(bytes[base + offset..base + offset + n])
    }

    function U8(offset: nat): Byte {
      NumberFits(this, offset, 1);
      Number(offset, 1)
    }

    function U16(offset: nat): U16 {
      NumberFits(this, offset, 2);
      Number(offset, 2)
    }

    function U32(offset: nat): U32 {
      NumberFits(this, offset, 4);
      Number(offset, 4)
    }

    function U64(offset: nat): U64 {
      NumberFits(this, offset, 8);
      Number(offset, 8)
    }

    function I32(offset: nat): I32 {
      NumberFits(this, offset, 4);
      Signed(Number(offset, 4), 4)
    }

    function I64(offset: nat): I64 {
      NumberFits(this, offset, 8);
      Signed(Number(offset, 8), 8)
    }

    /** The bytes of a text field before its first NUL, as far as the field lies within the part. */
    function Text(offset: nat, fieldSize: nat): Bytes {
      if offset >= Size() then [] else UntilNul(bytes[base + offset..base + Least(offset + fieldSize, Size())])
    }

    method GetBytes(offset: nat, count: nat) returns (value: nat)
      ensures value == Number(offset, count)
    {
      var available := Size();
      if offset > available || count > available - offset {
        return 0;
      }
      value := 0;
      for i := 0 to count
        invariant base + offset + i <= |bytes| || count == 0
        invariant value == if i == 0 then 0 else FromBytes(bytes[base + offset..base + offset + i])
      {
        ghost var read := bytes[base + offset..base + offset + i + 1];
        assert read[..i] == bytes[base + offset..base + offset + i];
        FromBytesOn(read[..i], read[i]);
        assert read == read[..i] + [read[i]];
        // The bits added lie above all bits read so far, so adding is the same as joining them.
        value := value + Raised(bytes[base + offset + i], i);
      }
    }

    method GetText(offset: nat, fieldSize: nat) returns (text: Bytes)
      ensures text == Text(offset, fieldSize)
    {
      hide UntilNul;
      text := [];
      var available := Size();
      var i := 0;
      while i < fieldSize && offset + i < available
        invariant i <= fieldSize && (i > 0 ==> offset + i <= available)
        invariant offset < available ==> text == bytes[base + offset..base + offset + i]
        invariant offset >= available ==> i == 0 && text == []
        invariant forall k :: 0 <= k < |text| ==> text[k] != 0
        decreases fieldSize - i
      {
        var byte := bytes[base + offset + i];
        if byte == 0 {
          break;
        }
        text := text + [byte];
        i := i + 1;
        OneMore(bytes, base + offset, i - 1);
      }
      if offset < available {
        ghost var field := bytes[base + offset..base + Least(offset + fieldSize, available)];
        assert |text| < |field| ==> field[|text|] == bytes[base + offset + |text|];
        UntilNulIs(field, text);
      }
    }
  }

  lemma OneMore(s: Bytes, lo: nat, n: nat)
    requires lo + n < |s|
    ensures s[lo..lo + n + 1] == s[lo..lo + n] + [s[lo + n]]
  {}

  lemma {:induction false} UntilNulIs(s: Bytes, t: Bytes)
    requires t <= s && forall k :: 0 <= k < |t| ==> t[k] != 0
    requires |t| < |s| ==> s[|t|] == 0
    ensures UntilNul(s) == t
  {
    if t != [] {
      assert t[0] == s[0] && t[1..] <= s[1..];
      UntilNulIs(s[1..], t[1..]);
    }
  }

  lemma NumberFits(r: WireReader, offset: nat, n: nat)
    ensures r.Number(offset, n) < Power(n)
    ensures Power(1) == 0x100 && Power(2) == 0x1_0000 && Power(4) == 0x1_0000_0000
    ensures Power(8) == 0x1_0000_0000_0000_0000
  {
    Powers();
    if n > 0 && offset + n <= r.Size() {
      FromBytesFits(r.bytes[r.base + offset..r.base + offset + n]);
    }
  }

  // ----- reading what was written

  lemma PartsLie(b: Bytes)
    ensures forall i: nat, x, y {:trigger At(b, i, x + y)} :: At(b, i, x + y) ==> At(b, i, x) && At(b, i + |x|, y)
  {
    forall i: nat, x: Bytes, y | At(b, i, x + y)
      ensures At(b, i, x) && At(b, i + |x|, y)
    {
      AtParts(b, i, x, y);
    }
  }

  lemma ReadsNumber(r: WireReader, offset: nat, value: nat, n: nat)
    requires n > 0 && offset + n <= r.size && value < Power(n) && At(r.bytes, r.base + offset, ToBytes(value, n))
    ensures r.Number(offset, n) == value
  {
    BytesComeBack(value, n);
  }

  lemma ReadsText(r: WireReader, offset: nat, text: Bytes, size: nat)
    requires size > 0 && offset + size <= r.size && At(r.bytes, r.base + offset, TextField(text, size))
    ensures r.Text(offset, size) == CutText(text, size)
  {
    hide Fit, UntilNul;
    var field, fitted := TextField(text, size), Fit(text, size - 1);
    var t := UntilNul(fitted);
    assert field[..|fitted|] == fitted;
    assert t <= field;
    assert |t| < |field| && field[|t|] == 0;
    UntilNulIs(field, t);
  }

  lemma ReadsSigned(r: WireReader, offset: nat, value: int, n: nat)
    requires n == 4 || n == 8
    requires n == 4 ==> -0x8000_0000 <= value < 0x8000_0000
    requires n == 8 ==> -0x8000_0000_0000_0000 <= value < 0x8000_0000_0000_0000
    requires 0 <= Unsigned(value, n)
    requires offset + n <= r.size && At(r.bytes, r.base + offset, ToBytes(Unsigned(value, n), n))
    ensures Signed(r.Number(offset, n), n) == value
  {
    Powers();
    ReadsNumber(r, offset, Unsigned(value, n), n);
  }

  /** Every field that lies within the part is read back. */
  lemma ReadsBack(r: WireReader)
    ensures forall i: nat, v: Byte {:trigger At(r.bytes, i, ToBytes(v, 1))} ::
              Inside(r, i, 1) && At(r.bytes, i, ToBytes(v, 1)) ==> r.U8(i - r.base) == v
    ensures forall i: nat, v: U16 {:trigger At(r.bytes, i, ToBytes(v, 2))} ::
              Inside(r, i, 2) && At(r.bytes, i, ToBytes(v, 2)) ==> r.U16(i - r.base) == v
    ensures forall i: nat, v: U32 {:trigger At(r.bytes, i, ToBytes(v, 4))} ::
              Inside(r, i, 4) && At(r.bytes, i, ToBytes(v, 4)) ==> r.U32(i - r.base) == v
    ensures forall i: nat, v: U64 {:trigger At(r.bytes, i, ToBytes(v, 8))} ::
              Inside(r, i, 8) && At(r.bytes, i, ToBytes(v, 8)) ==> r.U64(i - r.base) == v
    ensures forall i: nat, v: I32 {:trigger At(r.bytes, i, Int32Bytes(v))} ::
              Inside(r, i, 4) && At(r.bytes, i, Int32Bytes(v)) ==> r.I32(i - r.base) == v
    ensures forall i: nat, v: I64 {:trigger At(r.bytes, i, Int64Bytes(v))} ::
              Inside(r, i, 8) && At(r.bytes, i, Int64Bytes(v)) ==> r.I64(i - r.base) == v
    ensures forall i: nat, t, n: nat {:trigger At(r.bytes, i, TextField(t, n))} ::
              Inside(r, i, n) && At(r.bytes, i, TextField(t, n)) ==> r.Text(i - r.base, n) == CutText(t, n)
  {
    hide At, ToBytes, TextField, CutText;
    Powers();
    forall i: nat, v: Byte | Inside(r, i, 1) && At(r.bytes, i, ToBytes(v, 1))
      ensures r.U8(i - r.base) == v
    {
      ReadsNumber(r, i - r.base, v, 1);
    }
    forall i: nat, v: U16 | Inside(r, i, 2) && At(r.bytes, i, ToBytes(v, 2))
      ensures r.U16(i - r.base) == v
    {
      ReadsNumber(r, i - r.base, v, 2);
    }
    forall i: nat, v: U32 | Inside(r, i, 4) && At(r.bytes, i, ToBytes(v, 4))
      ensures r.U32(i - r.base) == v
    {
      ReadsNumber(r, i - r.base, v, 4);
    }
    forall i: nat, v: U64 | Inside(r, i, 8) && At(r.bytes, i, ToBytes(v, 8))
      ensures r.U64(i - r.base) == v
    {
      ReadsNumber(r, i - r.base, v, 8);
    }
    forall i: nat, v: I32 | Inside(r, i, 4) && At(r.bytes, i, Int32Bytes(v))
      ensures r.I32(i - r.base) == v
    {
      ReadsSigned(r, i - r.base, v, 4);
    }
    forall i: nat, v: I64 | Inside(r, i, 8) && At(r.bytes, i, Int64Bytes(v))
      ensures r.I64(i - r.base) == v
    {
      ReadsSigned(r, i - r.base, v, 8);
    }
    forall i: nat, t, n: nat | Inside(r, i, n) && At(r.bytes, i, TextField(t, n))
      ensures r.Text(i - r.base, n) == CutText(t, n)
    {
      ReadsText(r, i - r.base, t, n);
    }
  }

  /** A field of n bytes at i lies within the part. */
  predicate Inside(r: WireReader, i: nat, n: nat) {
    n > 0 && r.base <= i && i + n <= r.base + r.size
  }

  /**
   A valid text loses nothing but what does not fit: what comes back is its longest valid prefix
   that leaves room for the zero at the end, up to the first NUL.
   */
  lemma CutTextIsLongest(text: Bytes, size: nat)
    requires size > 0 && Valid(text)
    ensures var fitted := Fit(text, size - 1);
            && fitted <= text && |fitted| < size && Valid(fitted)
            && (forall p :: 0 <= p <= |text| && p < size && Valid(text[..p]) ==> p <= |fitted|)
            && CutText(text, size) == UntilNul(fitted)
            && (0 !in text ==> CutText(text, size) == fitted)
            && (0 !in text && |text| < size ==> CutText(text, size) == text)
  {
    hide Valid, UntilNul;
    var fitted := Fit(text, size - 1);
    FitIsLongest(text, size - 1);
    if 0 !in text {
      assert forall k :: 0 <= k < |fitted| ==> fitted[k] == text[k];
      UntilNulIs(fitted, fitted);
    }
  }
}
