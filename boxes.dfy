/** The box (atom) of ISO/IEC 14496-12, clause 4.2: a 32-bit big-endian size that
    counts the 8-byte header itself, a 4-byte type, then the box's own payload and
    its child boxes. Also the typed `data` atom of the iTunes metadata convention. */
module Boxes {
  import opened Basics

  /** A four-character box type code. */
  type BoxType = s: seq<Byte> | |s| == 4 witness [0, 0, 0, 0]

  predicate IsLatin1(s: string)
  {
    forall i :: 0 <= i < |s| ==> s[i] as int < 256
  }

  /** The type code spelled by four Latin-1 characters (`'\251'` is 0xA9). */
  function FourCC(s: string): (t: BoxType)
    requires |s| == 4 && IsLatin1(s)
    ensures forall i :: 0 <= i < 4 ==> t[i] == s[i] as int
  {
    [s[0] as int, s[1] as int, s[2] as int, s[3] as int]
  }

  const Moov: BoxType := FourCC("moov")
  const Udta: BoxType := FourCC("udta")
  const Meta: BoxType := FourCC("meta")
  const Ilst: BoxType := FourCC("ilst")
  const Hdlr: BoxType := FourCC("hdlr")
  const Free: BoxType := FourCC("free")
  const DataCode: BoxType := FourCC("data")
  const Freeform: BoxType := FourCC("----")
  const Mean: BoxType := FourCC("mean")
  const Name: BoxType := FourCC("name")
  /** `mp4.BoxType{}`, the zero value Go gives a box type. */
  const ZeroType: BoxType := [0, 0, 0, 0]

  /** A box of the tree: its type, the bytes its own fields marshal to, and its
      children in file order. */
  datatype Box = Box(typ: BoxType, payload: seq<Byte>, children: seq<Box>)

  /** A compact box header around `content`: the size field holds the whole box's
      length, truncated to 32 bits. */
  function Frame(t: BoxType, content: seq<Byte>): (r: seq<Byte>)
    ensures |r| == 8 + |content|
    ensures r[4..8] == t && r[8..] == content
    ensures |r| <= MaxUint32 ==> FromBe(r[..4]) == |r|
  {
    var r := Be32((8 + |content|) % 0x1_0000_0000) + t + content;
    assert r[..4] == Be32((8 + |content|) % 0x1_0000_0000);
    r
  }

  /** The bytes of a box as it stands in a file. */
  function Encode(b: Box): seq<Byte>
    decreases b, 1
  {
    Frame(b.typ, b.payload + EncodeAll(b.children))
  }

  function EncodeAll(bs: seq<Box>): seq<Byte>
    decreases bs, 0
  {
    if bs == [] then [] else Encode(bs[0]) + EncodeAll(bs[1..])
  }

  /** The whole box, header included, fits the compact 32-bit size field. */
  predicate Fits(b: Box)
  {
    |Encode(b)| <= MaxUint32
  }

  /** What one emission step produced: the bytes, or `None` when a box it closed
      did not fit its size field (the writer's error). */
  type Out = Option<seq<Byte>>

  /** Two emissions one after the other; an error in either is the error of both. */
  function Cat(a: Out, b: Out): (r: Out)
    ensures r.Some? <==> a.Some? && b.Some?
    ensures r.Some? ==> r.value == a.value + b.value
  {
    if a.Some? && b.Some? then Some(a.value + b.value) else None
  }

  /** A box opened with a placeholder size, filled with `c`, and closed: the size
      field is patched with the box's length, which must fit in 32 bits. */
  function Wrap(t: BoxType, c: Out): (r: Out)
    ensures r.Some? <==> c.Some? && 8 + |c.value| <= MaxUint32
    ensures r.Some? ==> r.value == Frame(t, c.value)
  {
    if c.Some? && 8 + |c.value| <= MaxUint32 then Some(Frame(t, c.value)) else None
  }

  /** Writing a box of the model through the writer: its bytes when it fits. */
  function Emit(b: Box): (r: Out)
    ensures r.Some? <==> Fits(b)
  {
    if Fits(b) then Some(Encode(b)) else None
  }

  function EmitAll(bs: seq<Box>): Out
  {
    if bs == [] then Some([]) else Cat(Emit(bs[0]), EmitAll(bs[1..]))
  }

  /** Each child's bytes lie inside the concatenation of all of them. */
  lemma {:induction false} EncodeAllLength(bs: seq<Box>, i: nat)
    requires i < |bs|
    ensures |Encode(bs[i])| <= |EncodeAll(bs)|
  {
    if i > 0 {
      EncodeAllLength(bs[1..], i - 1);
    }
  }

  /** The bytes of two boxes side by side. */
  lemma TwoChildren(c0: Box, c1: Box)
    ensures EncodeAll([c0, c1]) == Encode(c0) + Encode(c1)
  {
    assert [c0, c1][1..] == [c1];
    assert EncodeAll([c1]) == Encode(c1) + EncodeAll([]);
  }

  /** Every box of `bs` fits. */
  predicate AllFit(bs: seq<Box>)
  {
    forall i :: 0 <= i < |bs| ==> Fits(bs[i])
  }

  /** The bytes of two runs of boxes are the bytes of each, one after the other. */
  lemma {:induction false} EncodeAllAppend(a: seq<Box>, b: seq<Box>)
    ensures EncodeAll(a + b) == EncodeAll(a) + EncodeAll(b)
  {
    if a != [] {
      assert (a + b)[1..] == a[1..] + b;
      EncodeAllAppend(a[1..], b);
    } else {
      assert a + b == b;
    }
  }

  lemma AllFitAppend(a: seq<Box>, b: seq<Box>)
    ensures AllFit(a + b) <==> AllFit(a) && AllFit(b)
  {
    if AllFit(a) && AllFit(b) {
      forall i | 0 <= i < |a + b| ensures Fits((a + b)[i]) {
        if i >= |a| {
          assert (a + b)[i] == b[i - |a|];
        }
      }
    }
    if AllFit(a + b) {
      forall i | 0 <= i < |a| ensures Fits(a[i]) {
        assert (a + b)[i] == a[i];
      }
      forall i | 0 <= i < |b| ensures Fits(b[i]) {
        assert (a + b)[|a| + i] == b[i];
      }
    }
  }

  /** Emitting a sequence of boxes succeeds exactly when every box fits, and then
      yields their file bytes. */
  lemma {:induction false} EmitAllSpec(bs: seq<Box>)
    ensures EmitAll(bs).Some? <==> AllFit(bs)
    ensures EmitAll(bs).Some? ==> EmitAll(bs).value == EncodeAll(bs)
  {
    if bs != [] {
      EmitAllSpec(bs[1..]);
      assert forall i :: 1 <= i < |bs| ==> bs[i] == bs[1..][i - 1];
    }
  }

  /** The writer discipline — open, write the payload, write every child, close —
      produces exactly the box's bytes, and fails exactly when the box does not fit.
      A box that fits has children that fit. */
  lemma EmitIsWrap(b: Box)
    ensures Emit(b) == Wrap(b.typ, Cat(Some(b.payload), EmitAll(b.children)))
  {
    EmitAllSpec(b.children);
    if Fits(b) {
      forall i | 0 <= i < |b.children| ensures Fits(b.children[i]) {
        EncodeAllLength(b.children, i);
      }
    }
  }

  /** The header of every box that fits states its true length and its type. */
  lemma HeaderOfEncode(b: Box)
    requires Fits(b)
    ensures FromBe(Encode(b)[..4]) == |Encode(b)| == 8 + |b.payload| + |EncodeAll(b.children)|
    ensures Encode(b)[4..8] == b.typ
  {
  }

  /** iTunes `data` atom value types, as go-mp4 numbers them. */
  const KindBinary: nat := 0
  const KindUtf8: nat := 1

  /** A decoded `data` atom: value type, 4-byte locale, value bytes. */
  datatype DataAtom = DataAtom(kind: nat, lang: seq<Byte>, value: seq<Byte>)

  /** Reading a `data` payload: 32-bit type, 32-bit locale, then the value. A payload
      too short for the two fields does not decode. */
  function ParseData(payload: seq<Byte>): (r: Option<DataAtom>)
    ensures r.Some? <==> |payload| >= 8
    ensures r.Some? ==> |r.value.lang| == 4 && r.value.kind <= MaxUint32
  {
    if |payload| < 8 then None
    else
      FromBeFourBytes(payload[..4]);
      Some(DataAtom(FromBe(payload[..4]), payload[4..8], payload[8..]))
  }

  /** Marshalling a `data` payload; the inverse of `ParseData`. */
  function DataBody(kind: nat, lang: seq<Byte>, value: seq<Byte>): (r: seq<Byte>)
    requires kind <= MaxUint32 && |lang| == 4
    ensures |r| == 8 + |value|
    ensures ParseData(r) == Some(DataAtom(kind, lang, value))
  {
    var r := Be32(kind) + lang + value;
    assert r[..4] == Be32(kind) && r[4..8] == lang && r[8..] == value;
    r
  }

  /** A `data` atom freshly marshalled from a value: locale zero. */
  function DataBox(kind: nat, value: seq<Byte>): (b: Box)
    requires kind <= MaxUint32
    ensures b.typ == DataCode && b.children == []
    ensures ParseData(b.payload) == Some(DataAtom(kind, [0, 0, 0, 0], value))
  {
    Box(DataCode, DataBody(kind, [0, 0, 0, 0], value), [])
  }
}
