/** The rewrite as a walk over the source file's box tree (`actualWrite`'s
    callback, driven by `ReadBoxStructure`): every box is visited before its
    children, and the walk threads one cursor, the catalog name of the last atom
    entered, from box to box. Each visit yields the bytes it writes, or `None`
    when the rewrite fails. */
module Dispatch {
  import opened Basics
  import opened Boxes
  import opened Emitters
  import opened Catalog
  import opened TagSet
  import opened Creation
  import opened Existing
  import Presence

  /** What visiting a run of boxes yields: the bytes written and the cursor after
      it (`currentKey`). */
  datatype Walk = Walk(out: Out, key: string)

  /** The `hdlr` payload the bootstrap writes: eight zero bytes, the handler type
      and manufacturer "mdirappl" (`HandlerIsMdirAppl`), ten zero bytes. */
  function HdlrPayload(): (r: seq<Byte>)
    ensures |r| == 26
  {
    Zeros(8) + [0x6D, 0x64, 0x69, 0x72, 0x61, 0x70, 0x70, 0x6C] + Zeros(10)
  }

  /** The `hdlr` payload: 26 bytes, all zero but bytes 8 to 15, which spell
      "mdirappl" in UTF-8. */
  lemma HandlerIsMdirAppl()
    ensures |HdlrPayload()| == 26
    ensures HdlrPayload()[8..16] == Utf8("mdirappl")
    ensures forall i :: 0 <= i < 26 && !(8 <= i < 16) ==> HdlrPayload()[i] == 0
  {
    var s := "mdirappl";
    assert Utf8(s) == EncodeChar(s[0]) + Utf8(s[1..]);
  }

  /** The `ilst` the bootstrap creates: the new atoms and nothing else. */
  function NewIlst(created: seq<Box>): Box
  {
    Box(Ilst, [], created)
  }

  /** The handler box of the bootstrap's `meta`. */
  function HdlrBox(): Box
  {
    Box(Hdlr, HdlrPayload(), [])
  }

  /** The bootstrap's `meta`: four zero bytes of version and flags, the handler
      box, then the new `ilst`. */
  function NewMeta(created: seq<Box>): Box
  {
    Box(Meta, Zeros(4), [HdlrBox(), NewIlst(created)])
  }

  /** The `udta/meta` chain the bootstrap appends to `moov`. */
  function Chain(created: seq<Box>): Box
  {
    Box(Udta, [], [NewMeta(created)])
  }

  /** The padding box the bootstrap writes after `moov`. */
  function FreeBox(): Box
  {
    Box(Free, Zeros(2040), [])
  }

  /** The `data` case: with no cursor the atom is copied; under an atom the edit
      creates afresh it is dropped; otherwise `writeExisting` decides, and the
      cursor is cleared. The cursor thus survives exactly under an atom created
      afresh, and only `writeExisting` can fail. */
  function DataWalk(env: Env, b: Box, key: string): (r: Walk)
    ensures r.key != "" <==> key != "" && NeedCreate(env.atoms, key)
    ensures r.out.None? ==> key != "" && !NeedCreate(env.atoms, key)
  {
    if key == "" then Walk(Some(Encode(b)), key)
    else if NeedCreate(env.atoms, key) then Walk(Some([]), key)
    else
      match ExistingDecision(env.tags, key, b.payload)
      case CopyOriginal => Walk(Some(Encode(b)), "")
      case Drop => Walk(Some([]), "")
      case Replace(atom) => Walk(Emit(atom), "")
      case ParseError => Walk(None, "")
  }

  /** The callback on one box. */
  function Visit(env: Env, b: Box, key: string): Walk
    decreases b, 4
  {
    if b.typ == Moov && env.createIlst then CreateIlst(env, b, key)
    else if b.typ == Moov || b.typ == Udta || b.typ == Meta then Copy(env, b, key)
    else if b.typ == Ilst then CreateAndWrite(env, b, key)
    else VisitAtom(env, b, key)
  }

  /** The callback on a box that is none of `moov`, `udta`, `meta` and `ilst`: a
      catalog atom (the switch's `containsAtom` case) goes to the catalog case, a
      `data` atom to the `data` case; any other box is copied through, children
      included. */
  function VisitAtom(env: Env, b: Box, key: string): Walk
    decreases b, 3
  {
    if b.typ == ContainsAtom(b.typ, AtomsList()) then CatalogAtom(env, b, key)
    else if b.typ == DataCode then DataWalk(env, b, key)
    else Walk(Some(Encode(b)), key)
  }

  /** The catalog case: the atom is dropped when new covers replace it or the edit
      deletes its name, and otherwise copied with the cursor set to its name. */
  function CatalogAtom(env: Env, b: Box, key: string): Walk
    decreases b, 2
  {
    if b.typ == CoverCode && |env.tags.coversData| > 0 then Walk(Some([]), key)
    else
      var k := GetTag(b.typ);
      if ContainsTag(env.tags.delete, k) then Walk(Some([]), k)
      else Copy(env, b, k)
  }

  /** `copy`: the box re-opened with its payload, its children visited, the box
      closed. */
  function Copy(env: Env, b: Box, key: string): Walk
    decreases b, 1
  {
    var c := VisitAll(env, b.children, key);
    Walk(Wrap(b.typ, Cat(Some(b.payload), c.out)), c.key)
  }

  /** `createAndWrite` on an existing `ilst`: its payload, every new atom, then its
      children visited. */
  function CreateAndWrite(env: Env, b: Box, key: string): Walk
    decreases b, 1
  {
    var c := VisitAll(env, b.children, key);
    Walk(Wrap(b.typ, Cat(Some(b.payload), Cat(EmitAll(NewAtoms(env)), c.out))), c.key)
  }

  /** `createIlstAndWrite` on `moov` when the file has no `ilst`: the children
      visited, then the payload, then the new `udta/meta/hdlr,ilst` chain, all in
      `moov`; then a free box after `moov`. */
  function CreateIlst(env: Env, b: Box, key: string): Walk
    decreases b, 1
  {
    var c := VisitAll(env, b.children, key);
    Walk(Cat(Wrap(b.typ, Cat(c.out, Cat(Some(b.payload), Emit(Chain(NewAtoms(env)))))), Emit(FreeBox())), c.key)
  }

  /** The boxes of `bs` visited one after the other; the walk stops at the first
      failure. */
  function VisitAll(env: Env, bs: seq<Box>, key: string): Walk
    decreases bs, 0
  {
    if bs == [] then Walk(Some([]), key)
    else
      var prev := VisitAll(env, bs[..|bs| - 1], key);
      if prev.out.None? then prev
      else
        var v := Visit(env, bs[|bs| - 1], prev.key);
        Walk(Cat(prev.out, v.out), v.key)
  }

  /** One more box visited extends the walk by that box's visit. */
  lemma VisitAllStep(env: Env, bs: seq<Box>, i: nat, key: string)
    requires i < |bs|
    ensures VisitAll(env, bs[..i + 1], key)
         == var p := VisitAll(env, bs[..i], key);
            if p.out.None? then p
            else var v := Visit(env, bs[i], p.key); Walk(Cat(p.out, v.out), v.key)
  {
    assert bs[..i + 1][..i] == bs[..i];
    assert bs[..i + 1][i] == bs[i];
  }

  /** Once the walk has failed it stays failed. */
  lemma {:induction false} VisitAllStops(env: Env, bs: seq<Box>, j: nat, key: string)
    requires j <= |bs| && VisitAll(env, bs[..j], key).out.None?
    ensures VisitAll(env, bs, key).out.None?
    decreases |bs|
  {
    if j == |bs| {
      assert bs[..j] == bs;
    } else {
      var n := |bs| - 1;
      assert bs[..n][..j] == bs[..j];
      VisitAllStops(env, bs[..n], j, key);
    }
  }

  /** The rewrite's settings for `file`: the classification of its `ilst`, the
      bootstrap flag when it has none, and this run's map iteration orders. */
  function EnvOf(file: seq<Box>, tags: Tags, atomOrder: seq<string>, customOrder: seq<string>): Env
  {
    var codes := Presence.IlstCodes(file);
    Env(tags, Presence.Classification(codes), codes.None?, atomOrder, customOrder)
  }

  /** The bytes of the rewritten file, or `None` when the rewrite fails. */
  function Rewrite(file: seq<Box>, tags: Tags, atomOrder: seq<string>, customOrder: seq<string>): Out
  {
    VisitAll(EnvOf(file, tags, atomOrder, customOrder), file, "").out
  }
}
