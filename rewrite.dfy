/** The rewrite itself (`actualWrite` and the writers it calls per box), run
    through the box writer. Each method is proved to write exactly the bytes the
    walk of `Dispatch` yields for its box, to fail exactly when that walk fails,
    and to leave the cursor where the walk leaves it. */
module Rewriting {
  import opened Basics
  import opened Boxes
  import opened BoxWriter
  import opened Emitters
  import opened Catalog
  import opened TagSet
  import opened Creation
  import opened Existing
  import opened Dispatch
  import Presence

  /** The callback of `ReadBoxStructure` on one box. */
  method VisitBox(w: Writer, env: Env, b: Box, key: string) returns (ok: bool, key': string)
    requires w.Valid() && !w.failed
    modifies w
    decreases b, 4
    ensures w.Valid()
    ensures ok <==> Visit(env, b, key).out.Some?
    ensures ok ==> (!w.failed && w.open == old(w.open)
               && w.out == old(w.out) + Visit(env, b, key).out.value
               && key' == Visit(env, b, key).key)
  {
    if b.typ == Moov && env.createIlst {
      ok, key' := CreateIlstAndWrite(w, env, b, key);
    } else if b.typ == Moov || b.typ == Udta || b.typ == Meta {
      ok, key' := CopyBox(w, env, b, key);
    } else if b.typ == Ilst {
      ok, key' := CreateAndWrite(w, env, b, key);
    } else {
      ok, key' := VisitAtom(w, env, b, key);
    }
  }

  /** The callback's remaining cases: catalog atoms, `data` atoms, other boxes. */
  method VisitAtom(w: Writer, env: Env, b: Box, key: string) returns (ok: bool, key': string)
    requires w.Valid() && !w.failed
    modifies w
    decreases b, 3
    ensures w.Valid()
    ensures ok <==> Dispatch.VisitAtom(env, b, key).out.Some?
    ensures ok ==> (!w.failed && w.open == old(w.open)
               && w.out == old(w.out) + Dispatch.VisitAtom(env, b, key).out.value
               && key' == Dispatch.VisitAtom(env, b, key).key)
  {
    var catalog := b.typ == ContainsAtom(b.typ, AtomsList());
    if catalog {
      ok, key' := CatalogAtom(w, env, b, key);
    } else if b.typ == DataCode {
      ok, key' := DataCase(w, env, b, key);
    } else {
      w.CopyBox(b);
      ok, key' := true, key;
    }
  }

  /** The switch's `containsAtom` case: skip an old cover the new ones replace,
      skip an atom the edit deletes (setting the cursor to its name), or copy the
      atom with the cursor set to its name. */
  method CatalogAtom(w: Writer, env: Env, b: Box, key: string) returns (ok: bool, key': string)
    requires w.Valid() && !w.failed
    modifies w
    decreases b, 2
    ensures w.Valid()
    ensures ok <==> Dispatch.CatalogAtom(env, b, key).out.Some?
    ensures ok ==> (!w.failed && w.open == old(w.open)
               && w.out == old(w.out) + Dispatch.CatalogAtom(env, b, key).out.value
               && key' == Dispatch.CatalogAtom(env, b, key).key)
  {
    if b.typ == CoverCode && |env.tags.coversData| > 0 {
      return true, key;
    }
    var k := GetTag(b.typ);
    if ContainsTag(env.tags.delete, k) {
      return true, k;
    }
    ok, key' := CopyBox(w, env, b, k);
  }

  /** The children of a box, visited one after the other; `Expand`. */
  method VisitChildren(w: Writer, env: Env, bs: seq<Box>, key: string) returns (ok: bool, key': string)
    requires w.Valid() && !w.failed
    modifies w
    decreases bs, 0
    ensures w.Valid()
    ensures ok <==> VisitAll(env, bs, key).out.Some?
    ensures ok ==> (!w.failed && w.open == old(w.open)
               && w.out == old(w.out) + VisitAll(env, bs, key).out.value
               && key' == VisitAll(env, bs, key).key)
  {
    key' := key;
    var i := 0;
    while i < |bs|
      invariant 0 <= i <= |bs|
      invariant w.Valid() && !w.failed && w.open == old(w.open)
      invariant VisitAll(env, bs[..i], key).out.Some?
      invariant w.out == old(w.out) + VisitAll(env, bs[..i], key).out.value
      invariant key' == VisitAll(env, bs[..i], key).key
    {
      VisitAllStep(env, bs, i, key);
      ghost var done := VisitAll(env, bs[..i], key).out.value;
      ok, key' := VisitBox(w, env, bs[i], key');
      if !ok {
        VisitAllStops(env, bs, i + 1, key);
        return;
      }
      Assoc(old(w.out), done, Visit(env, bs[i], VisitAll(env, bs[..i], key).key).out.value);
      i := i + 1;
    }
    assert bs[..i] == bs;
    ok := true;
  }

  /** `copy`: re-open the box, write its payload, visit its children, close it. */
  method CopyBox(w: Writer, env: Env, b: Box, key: string) returns (ok: bool, key': string)
    requires w.Valid() && !w.failed
    modifies w
    decreases b, 1
    ensures w.Valid()
    ensures ok <==> Copy(env, b, key).out.Some?
    ensures ok ==> (!w.failed && w.open == old(w.open)
               && w.out == old(w.out) + Copy(env, b, key).out.value
               && key' == Copy(env, b, key).key)
  {
    ghost var pre := w.out;
    w.StartBox(b.typ);
    w.Write(b.payload);
    ok, key' := VisitChildren(w, env, b.children, key);
    if !ok {
      return;
    }
    ghost var kids := VisitAll(env, b.children, key).out.value;
    Assoc(pre + Placeholder + b.typ, b.payload, kids);
    ok := w.EndBox();
    if ok {
      PatchFrames(pre, b.typ, b.payload + kids);
    }
  }

  /** `createAndWrite`: re-open the existing `ilst`, write its payload and every
      new atom, visit its children, close it. */
  method CreateAndWrite(w: Writer, env: Env, b: Box, key: string) returns (ok: bool, key': string)
    requires w.Valid() && !w.failed
    modifies w
    decreases b, 1
    ensures w.Valid()
    ensures ok <==> Dispatch.CreateAndWrite(env, b, key).out.Some?
    ensures ok ==> (!w.failed && w.open == old(w.open)
               && w.out == old(w.out) + Dispatch.CreateAndWrite(env, b, key).out.value
               && key' == Dispatch.CreateAndWrite(env, b, key).key)
  {
    EmitAllSpec(NewAtoms(env));
    key' := key;
    ghost var pre := w.out;
    w.StartBox(b.typ);
    w.Write(b.payload);
    ok := WriteNewAtoms(w, env);
    if !ok {
      return;
    }
    ok, key' := VisitChildren(w, env, b.children, key);
    if !ok {
      return;
    }
    ghost var atoms := EncodeAll(NewAtoms(env));
    ghost var kids := VisitAll(env, b.children, key).out.value;
    Regroup(pre + Placeholder + b.typ, b.payload, atoms, kids);
    ok := w.EndBox();
    if ok {
      PatchFrames(pre, b.typ, b.payload + (atoms + kids));
    }
  }

  /** `createIlstAndWrite`: re-open `moov`, visit its children, write its payload,
      append the new `udta/meta/hdlr,ilst` chain, close `moov`, then write the
      2048-byte free box. */
  method CreateIlstAndWrite(w: Writer, env: Env, b: Box, key: string) returns (ok: bool, key': string)
    requires w.Valid() && !w.failed
    modifies w
    decreases b, 1
    ensures w.Valid()
    ensures ok <==> CreateIlst(env, b, key).out.Some?
    ensures ok ==> (!w.failed && w.open == old(w.open)
               && w.out == old(w.out) + CreateIlst(env, b, key).out.value
               && key' == CreateIlst(env, b, key).key)
  {
    ghost var pre := w.out;
    w.StartBox(b.typ);
    ok, key' := VisitChildren(w, env, b.children, key);
    if !ok {
      return;
    }
    w.Write(b.payload);
    ok := WriteChain(w, env);
    if !ok {
      return;
    }
    ghost var kids := VisitAll(env, b.children, key).out.value;
    ghost var chain := Encode(Chain(NewAtoms(env)));
    Regroup(pre + Placeholder + b.typ, kids, b.payload, chain);
    ok := w.EndBox();
    if !ok {
      return;
    }
    PatchFrames(pre, b.typ, kids + (b.payload + chain));
    LeafEncoding(FreeBox());
    ok := WriteLeaf(w, Free, Zeros(2040));
    Assoc(pre, Frame(b.typ, kids + (b.payload + chain)), Encode(FreeBox()));
  }

  /** The new `ilst` of the bootstrap: open, every new atom, close. */
  method WriteIlst(w: Writer, env: Env) returns (ok: bool)
    requires w.Valid() && !w.failed
    modifies w
    ensures w.Valid() && ok == !w.failed
    ensures ok <==> Fits(NewIlst(NewAtoms(env)))
    ensures ok ==> w.out == old(w.out) + Encode(NewIlst(NewAtoms(env))) && w.open == old(w.open)
  {
    var ilst := NewIlst(NewAtoms(env));
    ghost var pre := w.out;
    w.StartBox(Ilst);
    ok := WriteNewAtoms(w, env);
    if !ok {
      if Fits(ilst) {
        forall i | 0 <= i < |ilst.children| ensures Fits(ilst.children[i]) {
          ChildFits(ilst, i);
        }
      }
      return;
    }
    ghost var before := w.out;
    assert before == pre + Placeholder + ilst.typ + ilst.payload + EncodeAll(ilst.children);
    ok := w.EndBox();
    CloseBox(pre, ilst, before, w.out, ok);
  }

  /** The bootstrap's `meta`: open, four zero bytes, the handler box, the new
      `ilst`, close. */
  method WriteNewMeta(w: Writer, env: Env) returns (ok: bool)
    requires w.Valid() && !w.failed
    modifies w
    ensures w.Valid() && ok == !w.failed
    ensures ok <==> Fits(NewMeta(NewAtoms(env)))
    ensures ok ==> w.out == old(w.out) + Encode(NewMeta(NewAtoms(env))) && w.open == old(w.open)
  {
    var meta := NewMeta(NewAtoms(env));
    ghost var pre := w.out;
    w.StartBox(Meta);
    w.Write(Zeros(4));
    LeafEncoding(HdlrBox());
    ok := WriteLeaf(w, Hdlr, HdlrPayload());
    if !ok {
      return;
    }
    ok := WriteIlst(w, env);
    if !ok {
      if Fits(meta) {
        ChildFits(meta, 1);
      }
      return;
    }
    ghost var before := w.out;
    TwoChildren(HdlrBox(), NewIlst(NewAtoms(env)));
    Assoc(pre + Placeholder + Meta + Zeros(4), Encode(HdlrBox()), Encode(NewIlst(NewAtoms(env))));
    ok := w.EndBox();
    CloseBox(pre, meta, before, w.out, ok);
  }

  /** The bootstrap's `udta` around its `meta`. */
  method WriteChain(w: Writer, env: Env) returns (ok: bool)
    requires w.Valid() && !w.failed
    modifies w
    ensures w.Valid() && ok == !w.failed
    ensures ok <==> Fits(Chain(NewAtoms(env)))
    ensures ok ==> w.out == old(w.out) + Encode(Chain(NewAtoms(env))) && w.open == old(w.open)
  {
    var udta := Chain(NewAtoms(env));
    ghost var pre := w.out;
    w.StartBox(Udta);
    ok := WriteNewMeta(w, env);
    if !ok {
      if Fits(udta) {
        ChildFits(udta, 0);
      }
      return;
    }
    ghost var before := w.out;
    assert EncodeAll(udta.children) == Encode(udta.children[0]) + EncodeAll([]);
    assert before == pre + Placeholder + udta.typ + udta.payload + EncodeAll(udta.children);
    ok := w.EndBox();
    CloseBox(pre, udta, before, w.out, ok);
  }

  /** The `data` case of the callback. */
  method DataCase(w: Writer, env: Env, b: Box, key: string) returns (ok: bool, key': string)
    requires w.Valid() && !w.failed
    modifies w
    ensures w.Valid()
    ensures ok <==> DataWalk(env, b, key).out.Some?
    ensures ok ==> (!w.failed && w.open == old(w.open)
               && w.out == old(w.out) + DataWalk(env, b, key).out.value
               && key' == DataWalk(env, b, key).key)
  {
    if key == "" {
      w.CopyBox(b);
      return true, key;
    }
    if NeedCreate(env.atoms, key) {
      return true, key;
    }
    var copyOriginal;
    copyOriginal, ok := WriteExisting(w, env.tags, key, b.payload);
    key' := "";
    if ok && copyOriginal {
      w.CopyBox(b);
    }
  }

  /** `actualWrite`: classify the existing atoms, then walk the file through a
      fresh writer; the result is the new file's bytes, or `None` on error. */
  method ActualWrite(file: seq<Box>, tags: Tags, atomOrder: seq<string>, customOrder: seq<string>)
    returns (r: Out)
    ensures r == Rewrite(file, tags, atomOrder, customOrder)
  {
    var atoms, noIlst := Presence.PopulateAtoms(Presence.IlstCodes(file));
    assert atoms == Presence.Classification(Presence.IlstCodes(file));
    var createIlst := noIlst;
    var env := Env(tags, atoms, createIlst, atomOrder, customOrder);
    assert env == EnvOf(file, tags, atomOrder, customOrder);
    var w := new Writer();
    var ok, _ := VisitChildren(w, env, file, "");
    if ok {
      ghost var v := VisitAll(env, file, "").out;
      assert w.out == [] + v.value == v.value;
      r := Some(w.out);
    } else {
      r := None;
    }
  }
}
