/** The atom emitters (`marshalData`, `writeMeta`, `writeCovers`,
    `writeCustomMeta`): each drives the writer through a fixed open/write/close
    sequence. Each is specified by the box it emits; the writer's bytes are then
    that box's encoding, so every box it closes has the size 8 + its content, and
    the open-box stack is as it was. */
module Emitters {
  import opened Basics
  import opened Boxes
  import opened BoxWriter
  import Catalog

  /** The Go value handed to `marshalData`: a string or a byte slice. */
  datatype Value = Text(s: string) | Binary(bytes: seq<Byte>)

  /** The `data` atom `marshalData` writes: a string as UTF-8 text, a byte slice as
      binary, locale zero. */
  function DataAtomOf(v: Value): (b: Box)
    ensures b.typ == DataCode && b.children == []
    ensures v.Text? ==> ParseData(b.payload) == Some(DataAtom(KindUtf8, [0, 0, 0, 0], Utf8(v.s)))
    ensures v.Binary? ==> ParseData(b.payload) == Some(DataAtom(KindBinary, [0, 0, 0, 0], v.bytes))
  {
    match v
    case Text(s) => DataBox(KindUtf8, Utf8(s))
    case Binary(bytes) => DataBox(KindBinary, bytes)
  }

  /** The atom `writeMeta` writes: a `tag` box whose only child is one `data` atom. */
  function MetaBox(tag: BoxType, v: Value): (b: Box)
    ensures b.typ == tag && b.payload == [] && b.children == [DataAtomOf(v)]
  {
    Box(tag, [], [DataAtomOf(v)])
  }

  /** The atom `writeCovers` writes: one `covr` box with one binary `data` child per
      image, in the order given. */
  function CoversBox(covers: seq<seq<Byte>>): (b: Box)
    ensures b.typ == Catalog.CoverCode && b.payload == [] && b.children == CoverAtoms(covers)
  {
    Box(Catalog.CoverCode, [], CoverAtoms(covers))
  }

  /** The binary `data` atoms of `covers`, in order. */
  function CoverAtoms(covers: seq<seq<Byte>>): (r: seq<Box>)
  {
    if covers == [] then []
    else CoverAtoms(covers[..|covers| - 1]) + [DataAtomOf(Binary(covers[|covers| - 1]))]
  }

  lemma {:induction false} CoverAtomsSpec(covers: seq<seq<Byte>>)
    ensures |CoverAtoms(covers)| == |covers|
    ensures forall i :: 0 <= i < |covers| ==> CoverAtoms(covers)[i] == DataAtomOf(Binary(covers[i]))
  {
    if covers != [] {
      CoverAtomsSpec(covers[..|covers| - 1]);
    }
  }

  const AppleDomain: string := "com.apple.iTunes"

  /** The freeform atom `writeCustomMeta` writes: a `----` box holding `mean` (four
      zero bytes, then "com.apple.iTunes"), `name` (four zero bytes, then the key)
      and the value's `data` atom, in that order. */
  function CustomBox(key: string, v: Value): (b: Box)
    ensures b.typ == Freeform && b.payload == [] && |b.children| == 3
    ensures b.children[0] == Box(Mean, [0, 0, 0, 0] + Utf8(AppleDomain), [])
    ensures b.children[1] == Box(Name, [0, 0, 0, 0] + Utf8(key), [])
    ensures b.children[2] == DataAtomOf(v)
  {
    Box(Freeform, [], [Box(Mean, [0, 0, 0, 0] + Utf8(AppleDomain), []),
                       Box(Name, [0, 0, 0, 0] + Utf8(key), []),
                       DataAtomOf(v)])
  }

  /** A box that fits has children that fit. */
  lemma ChildFits(b: Box, i: nat)
    requires i < |b.children| && Fits(b)
    ensures Fits(b.children[i])
  {
    EncodeAllLength(b.children, i);
  }

  /** The bytes of a box with no children. */
  lemma LeafEncoding(b: Box)
    requires b.children == []
    ensures Encode(b) == Frame(b.typ, b.payload)
  {
    assert b.payload + EncodeAll(b.children) == b.payload;
  }

  /** The bytes of a box with no payload. */
  lemma ContainerEncoding(b: Box)
    requires b.payload == []
    ensures Encode(b) == Frame(b.typ, EncodeAll(b.children))
  {
    assert b.payload + EncodeAll(b.children) == EncodeAll(b.children);
  }

  lemma {:induction false} EncodeAllSnoc(bs: seq<Box>, b: Box)
    ensures EncodeAll(bs + [b]) == EncodeAll(bs) + Encode(b)
  {
    if bs == [] {
      assert [b] + [] == [b];
      assert EncodeAll([b]) == Encode(b) + EncodeAll([]);
    } else {
      assert (bs + [b])[1..] == bs[1..] + [b];
      EncodeAllSnoc(bs[1..], b);
    }
  }

  /** Closing a box whose payload and children were written after its placeholder
      succeeds exactly when the box fits, and then leaves the box's bytes. */
  lemma CloseBox(pre: seq<Byte>, b: Box, before: seq<Byte>, after: seq<Byte>, ok: bool)
    requires before == pre + Placeholder + b.typ + b.payload + EncodeAll(b.children)
    requires ok <==> |before| - |pre| <= MaxUint32
    requires ok ==> |before| - |pre| <= MaxUint32 && after == Patched(before, |pre|)
    ensures ok <==> Fits(b)
    ensures ok ==> after == pre + Encode(b)
  {
    assert pre + Placeholder + b.typ + b.payload + EncodeAll(b.children)
        == pre + Placeholder + b.typ + (b.payload + EncodeAll(b.children));
    if ok {
      PatchFrames(pre, b.typ, b.payload + EncodeAll(b.children));
    }
  }

  /** A leaf box written as open, payload, close. */
  method WriteLeaf(w: Writer, t: BoxType, payload: seq<Byte>) returns (ok: bool)
    requires w.Valid() && !w.failed
    modifies w
    ensures w.Valid() && ok == !w.failed
    ensures ok <==> Fits(Box(t, payload, []))
    ensures ok ==> w.out == old(w.out) + Encode(Box(t, payload, [])) && w.open == old(w.open)
  {
    ghost var pre := w.out;
    w.StartBox(t);
    w.Write(payload);
    ok := w.EndBox();
    LeafEncoding(Box(t, payload, []));
    if ok {
      PatchFrames(pre, t, payload);
    }
  }

  /** `marshalData`. */
  method MarshalData(w: Writer, v: Value) returns (ok: bool)
    requires w.Valid() && !w.failed
    modifies w
    ensures w.Valid() && ok == !w.failed
    ensures ok <==> Fits(DataAtomOf(v))
    ensures ok ==> w.out == old(w.out) + Encode(DataAtomOf(v)) && w.open == old(w.open)
  {
    var d := DataAtomOf(v);
    ok := WriteLeaf(w, DataCode, d.payload);
  }

  /** `writeMeta`. */
  method WriteMeta(w: Writer, tag: BoxType, v: Value) returns (ok: bool)
    requires w.Valid() && !w.failed
    modifies w
    ensures w.Valid() && ok == !w.failed
    ensures ok <==> Fits(MetaBox(tag, v))
    ensures ok ==> w.out == old(w.out) + Encode(MetaBox(tag, v)) && w.open == old(w.open)
  {
    ghost var pre := w.out;
    w.StartBox(tag);
    ok := MarshalData(w, v);
    if !ok {
      if Fits(MetaBox(tag, v)) {
        ChildFits(MetaBox(tag, v), 0);
      }
      return;
    }
    ghost var before := w.out;
    assert EncodeAll([DataAtomOf(v)]) == Encode(DataAtomOf(v)) + EncodeAll([]);
    ok := w.EndBox();
    CloseBox(pre, MetaBox(tag, v), before, w.out, ok);
  }

  /** One more image appends its atom's bytes. */
  lemma CoverAtomsStep(pre: seq<Byte>, covers: seq<seq<Byte>>, i: nat)
    requires i < |covers|
    ensures pre + EncodeAll(CoverAtoms(covers[..i + 1]))
         == pre + EncodeAll(CoverAtoms(covers[..i])) + Encode(DataAtomOf(Binary(covers[i])))
    ensures CoverAtoms(covers[..i + 1]) == CoverAtoms(covers[..i]) + [DataAtomOf(Binary(covers[i]))]
  {
    assert covers[..i + 1][..i] == covers[..i];
    EncodeAllSnoc(CoverAtoms(covers[..i]), DataAtomOf(Binary(covers[i])));
  }

  /** A cover image whose atom does not fit makes the whole `covr` box too big. */
  lemma CoverTooBig(covers: seq<seq<Byte>>, i: nat)
    requires i < |covers| && !Fits(DataAtomOf(Binary(covers[i])))
    ensures !Fits(CoversBox(covers))
  {
    if Fits(CoversBox(covers)) {
      CoverAtomsSpec(covers);
      ChildFits(CoversBox(covers), i);
    }
  }

  /** The loop of `writeCovers`: one binary `data` atom per image, in order. It
      stops at the first atom that does not fit. */
  method WriteCoverAtoms(w: Writer, covers: seq<seq<Byte>>) returns (ok: bool)
    requires w.Valid() && !w.failed
    modifies w
    ensures w.Valid() && ok == !w.failed
    ensures !ok ==> exists i :: 0 <= i < |covers| && !Fits(DataAtomOf(Binary(covers[i])))
    ensures ok <==> AllFit(CoverAtoms(covers))
    ensures ok ==> w.out == old(w.out) + EncodeAll(CoverAtoms(covers)) && w.open == old(w.open)
  {
    CoverAtomsSpec(covers);
    ok := true;
    var i := 0;
    while i < |covers|
      invariant 0 <= i <= |covers|
      invariant w.Valid() && !w.failed
      invariant w.open == old(w.open)
      invariant w.out == old(w.out) + EncodeAll(CoverAtoms(covers[..i]))
      invariant AllFit(CoverAtoms(covers[..i]))
    {
      ok := MarshalData(w, Binary(covers[i]));
      if !ok {
        assert CoverAtoms(covers)[i] == DataAtomOf(Binary(covers[i]));
        return;
      }
      CoverAtomsStep(old(w.out), covers, i);
      i := i + 1;
    }
    assert covers[..i] == covers;
  }

  /** `writeCovers`. */
  method WriteCovers(w: Writer, covers: seq<seq<Byte>>) returns (ok: bool)
    requires w.Valid() && !w.failed
    modifies w
    ensures w.Valid() && ok == !w.failed
    ensures ok <==> Fits(CoversBox(covers))
    ensures ok ==> w.out == old(w.out) + Encode(CoversBox(covers)) && w.open == old(w.open)
  {
    ghost var pre := w.out;
    w.StartBox(Catalog.CoverCode);
    ok := WriteCoverAtoms(w, covers);
    if !ok {
      var i :| 0 <= i < |covers| && !Fits(DataAtomOf(Binary(covers[i])));
      CoverTooBig(covers, i);
      return;
    }
    ghost var before := w.out;
    ok := w.EndBox();
    CloseBox(pre, CoversBox(covers), before, w.out, ok);
  }

  /** The bytes of an open box with no payload and three children, as its
      children are written one after the other. */
  lemma ThreeChildren(pre: seq<Byte>, b: Box)
    requires b.payload == [] && |b.children| == 3
    ensures pre + Placeholder + b.typ + b.payload + EncodeAll(b.children)
         == pre + Placeholder + b.typ + Encode(b.children[0]) + Encode(b.children[1]) + Encode(b.children[2])
  {
    var c := b.children;
    assert c[1..][1..][1..] == [];
    assert EncodeAll(c[1..][1..]) == Encode(c[2]);
    assert EncodeAll(c) == Encode(c[0]) + (Encode(c[1]) + Encode(c[2]));
  }

  /** `writeCustomMeta`. */
  method WriteCustomMeta(w: Writer, key: string, v: Value) returns (ok: bool)
    requires w.Valid() && !w.failed
    modifies w
    ensures w.Valid() && ok == !w.failed
    ensures ok <==> Fits(CustomBox(key, v))
    ensures ok ==> w.out == old(w.out) + Encode(CustomBox(key, v)) && w.open == old(w.open)
  {
    ghost var pre := w.out;
    ghost var b := CustomBox(key, v);
    w.StartBox(Freeform);
    ghost var head := w.out;
    ok := WriteLeaf(w, Mean, [0, 0, 0, 0] + Utf8(AppleDomain));
    if !ok {
      if Fits(b) {
        ChildFits(b, 0);
      }
      return;
    }
    assert w.out == head + Encode(b.children[0]);
    ok := WriteLeaf(w, Name, [0, 0, 0, 0] + Utf8(key));
    if !ok {
      if Fits(b) {
        ChildFits(b, 1);
      }
      return;
    }
    assert w.out == head + Encode(b.children[0]) + Encode(b.children[1]);
    ok := MarshalData(w, v);
    if !ok {
      if Fits(b) {
        ChildFits(b, 2);
      }
      return;
    }
    ghost var before := w.out;
    assert before == head + Encode(b.children[0]) + Encode(b.children[1]) + Encode(b.children[2]);
    ThreeChildren(pre, b);
    assert before == pre + Placeholder + b.typ + b.payload + EncodeAll(b.children);
    ok := w.EndBox();
    CloseBox(pre, b, before, w.out, ok);
  }
}
