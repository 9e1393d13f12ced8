/** What the walk does to each kind of box, and what the rewrite makes of a whole
    file: boxes it has no case for pass through byte for byte, a deleted atom
    vanishes, an atom the edit has nothing for is kept, a text atom is rewritten in
    place, and a file without `ilst` gets the new `udta/meta/ilst` chain at the end
    of `moov` and a free box after it, where a second rewrite finds it. */
module Outcomes {
  import opened Basics
  import opened Boxes
  import opened Catalog
  import opened TagSet
  import opened Creation
  import opened Emitters
  import opened Existing
  import opened Dispatch
  import Presence

  /** A box type none of the walk's cases matches (by `CatalogCaseMatches`, one
      that is neither a catalog code nor the zero type): it is copied through,
      children and all. */
  predicate Plain(t: BoxType)
  {
    t != Moov && t != Udta && t != Meta && t != Ilst && t != DataCode && t != ContainsAtom(t, AtomsList())
  }

  predicate AllPlain(bs: seq<Box>)
  {
    forall i :: 0 <= i < |bs| ==> Plain(bs[i].typ)
  }

  /** A box of a type the walk has no case for is copied unchanged, and the cursor
      is left alone. */
  lemma PlainCopied(env: Env, b: Box, key: string)
    requires Plain(b.typ)
    ensures Visit(env, b, key) == Walk(Some(Encode(b)), key)
  {
  }

  lemma PlainPrefix(bs: seq<Box>, n: nat)
    requires AllPlain(bs) && n <= |bs|
    ensures AllPlain(bs[..n])
  {
    forall j | 0 <= j < n ensures Plain(bs[..n][j].typ) {
      assert bs[..n][j] == bs[j];
    }
  }

  /** A run of such boxes is copied unchanged. */
  lemma {:induction false} PlainRunCopied(env: Env, bs: seq<Box>, key: string)
    requires AllPlain(bs)
    ensures VisitAll(env, bs, key) == Walk(Some(EncodeAll(bs)), key)
  {
    if bs != [] {
      var n := |bs| - 1;
      PlainPrefix(bs, n);
      PlainRunCopied(env, bs[..n], key);
      PlainCopied(env, bs[n], key);
      SnocSplit(bs);
      EncodeAllSnoc(bs[..n], bs[n]);
    }
  }

  /** A run of one box is that box's visit. */
  lemma VisitOne(env: Env, b: Box, key: string)
    ensures VisitAll(env, [b], key) == Visit(env, b, key)
  {
    assert [b][..0] == [];
    var v := Visit(env, b, key);
    if v.out.Some? {
      assert [] + v.out.value == v.out.value;
    }
  }

  /** Visiting two runs one after the other: the bytes of both, and the cursor the
      second leaves, unless the first fails. */
  lemma {:induction false} VisitAllAppend(env: Env, a: seq<Box>, b: seq<Box>, key: string)
    ensures var x := VisitAll(env, a, key);
            var y := VisitAll(env, b, x.key);
            VisitAll(env, a + b, key).out == Cat(x.out, y.out)
            && (x.out.Some? ==> VisitAll(env, a + b, key).key == y.key)
    decreases |b|
  {
    var x := VisitAll(env, a, key);
    if b == [] {
      assert a + b == a;
      if x.out.Some? {
        assert x.out.value + [] == x.out.value;
      }
    } else {
      var n := |b| - 1;
      VisitAllAppend(env, a, b[..n], key);
      assert (a + b)[..|a + b| - 1] == a + b[..n];
      assert (a + b)[|a + b| - 1] == b[n];
      var p := VisitAll(env, a + b[..n], key);
      var y' := VisitAll(env, b[..n], x.key);
      if p.out.Some? {
        var v := Visit(env, b[n], p.key);
        if v.out.Some? {
          Assoc(x.out.value, y'.out.value, v.out.value);
        }
      }
    }
  }

  /** `data` is neither a container nor a catalog code. */
  lemma DataCase()
    ensures DataCode != Moov && DataCode != Udta && DataCode != Meta && DataCode != Ilst
    ensures DataCode != ContainsAtom(DataCode, AtomsList())
  {
    ContainersOutsideCatalog();
    CatalogCaseMatches(DataCode);
    assert DataCode[0] != ZeroType[0];
  }

  /** A `data` atom goes to the `data` case. */
  lemma DataVisit(env: Env, d: Box, key: string)
    requires d.typ == DataCode
    ensures Visit(env, d, key) == DataWalk(env, d, key)
  {
    DataCase();
  }

  /** A `data` atom met with no cursor set (outside any catalog atom, or after
      the cursor was cleared) is copied unchanged. */
  lemma StrayDataCopied(env: Env, d: Box)
    requires d.typ == DataCode
    ensures Visit(env, d, "") == Walk(Some(Encode(d)), "")
  {
    DataVisit(env, d, "");
  }

  /** An existing catalog atom the edit deletes by name (case-insensitively) is
      dropped with everything in it; the cursor then names it. */
  lemma DeletedAtomDropped(env: Env, b: Box, key: string)
    requires b.typ in Codes && !(b.typ == CoverCode && |env.tags.coversData| > 0)
    requires ContainsTag(env.tags.delete, GetTag(b.typ))
    ensures Visit(env, b, key) == Walk(Some([]), GetTag(b.typ))
  {
    CatalogVisit(env, b, key);
  }

  /** An existing `covr` atom is dropped when the edit brings cover images (the
      new ones are written at the head of `ilst`); the cursor is left alone. */
  lemma OldCoversDropped(env: Env, b: Box, key: string)
    requires b.typ == CoverCode && |env.tags.coversData| > 0
    ensures Visit(env, b, key) == Walk(Some([]), key)
  {
    FixedCodes();
    CatalogVisit(env, b, key);
  }

  /** A catalog atom the walk keeps: not replaced by new covers, not deleted. */
  predicate KeptCatalogAtom(env: Env, b: Box)
  {
    b.typ in Codes && !(b.typ == CoverCode && |env.tags.coversData| > 0)
    && !ContainsTag(env.tags.delete, GetTag(b.typ))
  }

  /** A catalog code is no container and takes the switch's catalog case. */
  lemma CatalogCase(t: BoxType)
    requires t in Codes
    ensures t != Moov && t != Udta && t != Meta && t != Ilst
    ensures t == ContainsAtom(t, AtomsList())
  {
    ContainersOutsideCatalog();
    CatalogCaseMatches(t);
  }

  /** A kept catalog atom is copied with the cursor set to its name. */
  lemma CatalogAtomCopied(env: Env, b: Box, key: string)
    requires KeptCatalogAtom(env, b)
    ensures Visit(env, b, key) == Copy(env, b, GetTag(b.typ))
  {
    CatalogVisit(env, b, key);
  }

  /** A catalog atom goes to the catalog case. */
  lemma CatalogVisit(env: Env, b: Box, key: string)
    requires b.typ in Codes
    ensures Visit(env, b, key) == CatalogAtom(env, b, key)
  {
    CatalogCase(b.typ);
    assert Visit(env, b, key) == Dispatch.VisitAtom(env, b, key);
  }

  /** Copying a box with one child: the box around that child's visit. */
  lemma CopyOne(env: Env, b: Box, key: string)
    requires |b.children| == 1
    ensures var v := Visit(env, b.children[0], key);
            Copy(env, b, key) == Walk(Wrap(b.typ, Cat(Some(b.payload), v.out)), v.key)
  {
    assert b.children == [b.children[0]];
    VisitOne(env, b.children[0], key);
  }

  /** A kept catalog atom holding one `data` atom: the atom is re-opened with its
      payload and the `data` case runs under its name. */
  lemma OneDataAtom(env: Env, b: Box, key: string)
    requires KeptCatalogAtom(env, b) && |b.children| == 1 && b.children[0].typ == DataCode
    ensures var r := DataWalk(env, b.children[0], GetTag(b.typ));
            Visit(env, b, key) == Walk(Wrap(b.typ, Cat(Some(b.payload), r.out)), r.key)
  {
    CatalogAtomCopied(env, b, key);
    CopyOne(env, b, GetTag(b.typ));
    DataVisit(env, b.children[0], GetTag(b.typ));
  }

  /** The bytes of a box whose one child was copied unchanged are the box's. */
  lemma CopiedChildBytes(b: Box)
    requires |b.children| == 1
    ensures Wrap(b.typ, Cat(Some(b.payload), Some(Encode(b.children[0])))) == Emit(b)
  {
    assert b.children == [b.children[0]];
    One(b.children[0]);
  }

  /** The bytes of a box whose one child was re-emitted as `c`. */
  lemma ReplacedChildBytes(t: BoxType, p: seq<Byte>, c: Box)
    ensures Wrap(t, Cat(Some(p), Emit(c))) == Emit(Box(t, p, [c]))
  {
    EmitIsWrap(Box(t, p, [c]));
    assert [c][1..] == [];
    if Fits(c) {
      assert Encode(c) + [] == Encode(c);
    }
  }

  /** The bytes of a box whose children were all dropped. */
  lemma EmptiedBytes(t: BoxType, p: seq<Byte>)
    ensures Wrap(t, Cat(Some(p), Some([]))) == Emit(Box(t, p, []))
  {
    EmitIsWrap(Box(t, p, []));
    assert p + [] == p;
  }

  /** The decision for a text atom with a non-empty new value, from a readable
      payload: its `data` atom re-marshalled as UTF-8 in the old locale. */
  lemma TextDecision(tags: Tags, k: string, payload: seq<Byte>)
    requires k !in Special && TextValue(tags, k) != "" && |payload| >= 8
    ensures ExistingDecision(tags, k, payload)
         == Replace(Box(DataCode, DataBody(KindUtf8, payload[4..8], Utf8(TextValue(tags, k))), []))
  {
    assert k != "Cover" && k != "Disk" && k != "Track" && k != "ContentRating";
  }

  /** The `data` atom `d` re-marshalled as UTF-8 text holding `value`, in the
      locale `d` carries. */
  function TextData(d: Box, value: string): (r: Box)
    requires |d.payload| >= 8
    ensures r.typ == DataCode && r.children == []
    ensures ParseData(r.payload) == Some(DataAtom(KindUtf8, d.payload[4..8], Utf8(value)))
  {
    Box(DataCode, DataBody(KindUtf8, d.payload[4..8], Utf8(value)), [])
  }

  /** The `data` case under a text atom with a non-empty new value. */
  lemma TextDataWalk(env: Env, d: Box, k: string)
    requires k != "" && k !in Special && !NeedCreate(env.atoms, k)
    requires TextValue(env.tags, k) != "" && |d.payload| >= 8
    ensures DataWalk(env, d, k) == Walk(Emit(TextData(d, TextValue(env.tags, k))), "")
  {
    TextDecision(env.tags, k, d.payload);
  }

  /** The `data` case under `trkn` when the edit sets a track number. */
  lemma TrackDataWalk(env: Env, d: Box)
    requires !NeedCreate(env.atoms, "Track") && env.tags.trackNumber >= 1
    ensures DataWalk(env, d, "Track") == Walk(Some([]), "")
  {
    NumbersDropped(env.tags, "Track", d.payload);
  }

  /** A run of `data` atoms met under the cursor `k`, the first of which the
      `data` case keeps: every one of them is copied unchanged. The first clears
      the cursor and the others are met with none, so an empty run leaves `k`
      set. */
  lemma {:induction false} DataRunKept(env: Env, ds: seq<Box>, k: string)
    requires forall i :: 0 <= i < |ds| ==> ds[i].typ == DataCode
    requires k != "" && ds != [] ==> !NeedCreate(env.atoms, k) && ExistingDecision(env.tags, k, ds[0].payload).CopyOriginal?
    ensures VisitAll(env, ds, k) == Walk(Some(EncodeAll(ds)), if ds == [] then k else "")
    decreases |ds|
  {
    if ds != [] {
      var n := |ds| - 1;
      if n == 0 {
        assert ds == [ds[0]];
        VisitOne(env, ds[0], k);
        DataVisit(env, ds[0], k);
        One(ds[0]);
      } else {
        assert ds[..n][0] == ds[0];
        DataRunKept(env, ds[..n], k);
        StrayDataCopied(env, ds[n]);
        SnocSplit(ds);
        EncodeAllSnoc(ds[..n], ds[n]);
      }
    }
  }

  /** The bytes of a box whose children were all copied unchanged are the box's;
      when one child does not fit, neither does the box. */
  lemma RawChildrenBytes(b: Box)
    ensures Wrap(b.typ, Cat(Some(b.payload), Some(EncodeAll(b.children)))) == Emit(b)
  {
    EmitIsWrap(b);
    EmitAllSpec(b.children);
    if !AllFit(b.children) {
      var i :| 0 <= i < |b.children| && !Fits(b.children[i]);
      EncodeAllLength(b.children, i);
    }
  }

  /** The `data` case under `rtng` when the rating is in 0..2. */
  lemma RatingDataWalk(env: Env, d: Box)
    requires !NeedCreate(env.atoms, "ContentRating") && 0 <= env.tags.contentRating <= 2
    ensures DataWalk(env, d, "ContentRating") == Walk(Some([]), "")
  {
    NumbersDropped(env.tags, "ContentRating", d.payload);
  }

  /** An existing atom the edit has nothing for (`KeptWhenNothingToWrite`) is
      written back unchanged, whatever number of `data` atoms it holds (a `covr`
      with several images, or an empty shell); the cursor is cleared when it held
      a `data` atom, and stays set to the atom's name when it held none. */
  lemma KeptAtomUnchanged(env: Env, b: Box, key: string)
    requires KeptCatalogAtom(env, b)
    requires forall i :: 0 <= i < |b.children| ==> b.children[i].typ == DataCode
    requires b.children != [] ==> !NeedCreate(env.atoms, GetTag(b.typ))
                                  && ExistingDecision(env.tags, GetTag(b.typ), b.children[0].payload).CopyOriginal?
    ensures Visit(env, b, key) == Walk(Emit(b), if b.children == [] then GetTag(b.typ) else "")
  {
    CatalogAtomCopied(env, b, key);
    DataRunKept(env, b.children, GetTag(b.typ));
    RawChildrenBytes(b);
  }

  /** With no new rating asked for, the rating is 0, inside 0..2, so the `data`
      atom of an existing `rtng` is dropped: an edit that leaves the rating alone
      still removes it. */
  lemma RatingDroppedByDefault(tags: Tags, payload: seq<Byte>)
    requires tags.contentRating == 0
    ensures ExistingDecision(tags, "ContentRating", payload) == Drop
  {
  }

  /** An existing `rtng` atom when the rating is in 0..2, the default 0 included:
      it keeps its box but loses its `data` atom. */
  lemma RatingAtomEmptied(env: Env, b: Box, key: string)
    requires b.typ == RatingCode && !ContainsTag(env.tags.delete, "ContentRating")
    requires |b.children| == 1 && b.children[0].typ == DataCode
    requires !NeedCreate(env.atoms, "ContentRating") && 0 <= env.tags.contentRating <= 2
    ensures Visit(env, b, key) == Walk(Emit(Box(RatingCode, b.payload, [])), "")
  {
    FixedCodes();
    assert RatingCode[0] != CoverCode[0];
    assert GetTag(b.typ) == "ContentRating";
    OneDataAtom(env, b, key);
    RatingDataWalk(env, b.children[0]);
    EmptiedBytes(RatingCode, b.payload);
  }

  /** An existing text atom the edit gives a non-empty value keeps its place, its
      type and its payload; its `data` atom is replaced by one holding the new
      value as UTF-8 in the old locale; the cursor is cleared. */
  lemma TextAtomRewritten(env: Env, b: Box, key: string)
    requires KeptCatalogAtom(env, b) && |b.children| == 1 && b.children[0].typ == DataCode
    requires GetTag(b.typ) !in Special && !NeedCreate(env.atoms, GetTag(b.typ))
    requires TextValue(env.tags, GetTag(b.typ)) != "" && |b.children[0].payload| >= 8
    ensures Visit(env, b, key)
         == Walk(Emit(Box(b.typ, b.payload, [TextData(b.children[0], TextValue(env.tags, GetTag(b.typ)))])), "")
  {
    var d := b.children[0];
    var k := GetTag(b.typ);
    OneDataAtom(env, b, key);
    TextDataWalk(env, d, k);
    ReplacedChildBytes(b.typ, b.payload, TextData(d, TextValue(env.tags, k)));
  }

  /** An existing `trkn` atom when the edit sets a track number keeps its box but
      loses its `data` atom: an empty `trkn` stays where it was, next to the new
      one written at the head of `ilst` (`TrackAtomIffNumber`). */
  lemma TrackAtomEmptied(env: Env, b: Box, key: string)
    requires b.typ == TrackCode && !ContainsTag(env.tags.delete, "Track")
    requires |b.children| == 1 && b.children[0].typ == DataCode
    requires !NeedCreate(env.atoms, "Track") && env.tags.trackNumber >= 1
    ensures Visit(env, b, key) == Walk(Emit(Box(TrackCode, b.payload, [])), "")
  {
    FixedCodes();
    assert TrackCode[0] != CoverCode[0];
    assert GetTag(b.typ) == "Track";
    OneDataAtom(env, b, key);
    TrackDataWalk(env, b.children[0]);
    EmptiedBytes(TrackCode, b.payload);
  }

  /** The `data` case under `disk` when the edit sets a disk number. */
  lemma DiskDataWalk(env: Env, d: Box)
    requires !NeedCreate(env.atoms, "Disk") && env.tags.diskNumber >= 1
    ensures DataWalk(env, d, "Disk") == Walk(Some([]), "")
  {
    NumbersDropped(env.tags, "Disk", d.payload);
  }

  /** An existing `disk` atom when the edit sets a disk number keeps its box but
      loses its `data` atom, as `trkn` does. */
  lemma DiskAtomEmptied(env: Env, b: Box, key: string)
    requires b.typ == DiskCode && !ContainsTag(env.tags.delete, "Disk")
    requires |b.children| == 1 && b.children[0].typ == DataCode
    requires !NeedCreate(env.atoms, "Disk") && env.tags.diskNumber >= 1
    ensures Visit(env, b, key) == Walk(Emit(Box(DiskCode, b.payload, [])), "")
  {
    FixedCodes();
    assert DiskCode[0] != CoverCode[0];
    assert GetTag(b.typ) == "Disk";
    OneDataAtom(env, b, key);
    DiskDataWalk(env, b.children[0]);
    EmptiedBytes(DiskCode, b.payload);
  }

  /** A run of `data` atoms met under the name of an atom the edit creates
      afresh: every one of them is dropped and the cursor stays. */
  lemma {:induction false} DataRunDropped(env: Env, ds: seq<Box>, k: string)
    requires forall i :: 0 <= i < |ds| ==> ds[i].typ == DataCode
    requires k != "" && NeedCreate(env.atoms, k)
    ensures VisitAll(env, ds, k) == Walk(Some([]), k)
    decreases |ds|
  {
    if ds != [] {
      var n := |ds| - 1;
      DataRunDropped(env, ds[..n], k);
      DataVisit(env, ds[n], k);
      var none: seq<Byte> := [];
      assert none + none == none;
    }
  }

  /** A catalog atom met outside `ilst` whose name is marked "to create" (its
      code is missing from `ilst`): its `data` atoms are dropped, its shell
      stays, and its name stays the cursor. */
  lemma OrphanAtomEmptied(env: Env, b: Box, key: string)
    requires KeptCatalogAtom(env, b) && NeedCreate(env.atoms, GetTag(b.typ))
    requires forall i :: 0 <= i < |b.children| ==> b.children[i].typ == DataCode
    ensures Visit(env, b, key) == Walk(Emit(Box(b.typ, b.payload, [])), GetTag(b.typ))
  {
    CatalogAtomCopied(env, b, key);
    DataRunDropped(env, b.children, GetTag(b.typ));
    EmptiedBytes(b.typ, b.payload);
  }

  /** With an `ilst`, a key whose code no atom of `ilst` has is marked "to
      create", so the walk treats an atom of that code met elsewhere as above. */
  lemma OrphanMarked(file: seq<Box>, tags: Tags, atomOrder: seq<string>, customOrder: seq<string>, k: string)
    requires Presence.IlstCodes(file).Some? && k in Presence.Classification(Presence.IlstCodes(file))
    requires Presence.Extract(file, Presence.IlstPath + [AtomCode(k)]) == []
    ensures NeedCreate(EnvOf(file, tags, atomOrder, customOrder).atoms, k)
  {
    Presence.ClassificationMatchesFile(file, k);
  }

  /** `createAndWrite` on an existing `ilst`: the new atoms come first, in the
      order they are created, ahead of the existing atoms as the walk rewrote
      them; it fails when a new atom or the `ilst` does not fit. */
  lemma NewAtomsFirst(env: Env, b: Box, key: string)
    requires b.typ == Ilst
    ensures var c := VisitAll(env, b.children, key);
            var r := Visit(env, b, key);
            r.key == c.key
            && (r.out.Some? <==> c.out.Some? && AllFit(NewAtoms(env))
                                 && 8 + |b.payload| + |EncodeAll(NewAtoms(env))| + |c.out.value| <= MaxUint32)
            && (r.out.Some? ==> r.out.value == Frame(Ilst, b.payload + EncodeAll(NewAtoms(env)) + c.out.value))
  {
    assert Ilst[0] != Moov[0] && Ilst[0] != Udta[0] && Ilst[0] != Meta[0];
    EmitAllSpec(NewAtoms(env));
    var c := VisitAll(env, b.children, key);
    if c.out.Some? && AllFit(NewAtoms(env)) {
      Assoc(b.payload, EncodeAll(NewAtoms(env)), c.out.value);
    }
  }

  /** The box types the bootstrap chain uses are distinct. */
  lemma ChainTypesDiffer()
    ensures Free != Moov && Udta != Moov && Hdlr != Ilst
  {
    assert Free[0] != Moov[0] && Udta[0] != Moov[0] && Hdlr[0] != Ilst[0];
  }

  /** The free box the bootstrap writes after `moov`: 2048 bytes, a header that
      states that length and the type `free`, then zeros. */
  lemma FreePadding()
    ensures Fits(FreeBox())
    ensures |Encode(FreeBox())| == 2048 && FromBe(Encode(FreeBox())[..4]) == 2048
    ensures Encode(FreeBox())[4..8] == Free
    ensures forall i :: 8 <= i < 2048 ==> Encode(FreeBox())[i] == 0
  {
    var e := Encode(FreeBox());
    assert e == Frame(Free, Zeros(2040) + EncodeAll([]));
    assert Zeros(2040) + EncodeAll([]) == Zeros(2040);
    forall i | 8 <= i < 2048
      ensures e[i] == 0
    {
      assert e[i] == e[8..][i - 8];
    }
  }

  /** `moov` with the bootstrap chain, holding `created`, after its children. */
  function GrownMoov(created: seq<Box>, m: Box): Box
  {
    Box(Moov, [], m.children + [Chain(created)])
  }

  /** The bootstrap on a `moov` with no payload whose children the walk turned
      into the bytes of `kids` (copied through, or rewritten as for any other
      file): `moov` is written with `kids` and the new chain after them, and the
      free box follows; it fails exactly when that `moov` does not fit its size
      field. A `moov` that already held a `udta` without `meta/ilst` thus ends with
      two `udta` boxes. */
  lemma BootstrapMoov(env: Env, m: Box, key: string, kids: seq<Box>)
    requires env.createIlst && m.typ == Moov && m.payload == []
    requires VisitAll(env, m.children, key).out == Some(EncodeAll(kids))
    ensures var grown := GrownMoov(NewAtoms(env), Box(Moov, [], kids));
            Visit(env, m, key).out == (if Fits(grown) then Some(Encode(grown) + Encode(FreeBox())) else None)
            && Visit(env, m, key).key == VisitAll(env, m.children, key).key
  {
    var grown := GrownMoov(NewAtoms(env), Box(Moov, [], kids));
    GrownMoovBytes(NewAtoms(env), Box(Moov, [], kids));
    BootstrapBytes(EncodeAll(kids), Chain(NewAtoms(env)), grown);
  }

  /** What `createIlstAndWrite` writes for a `moov` whose children came out as
      `kids` and which has no payload: the grown `moov` and the free box, or an
      error when the grown `moov` does not fit. */
  lemma BootstrapBytes(kids: seq<Byte>, chain: Box, grown: Box)
    requires Encode(grown) == Frame(Moov, kids + Encode(chain))
    requires Fits(grown) ==> Fits(chain)
    ensures Cat(Wrap(Moov, Cat(Some(kids), Cat(Some([]), Emit(chain)))), Emit(FreeBox()))
         == if Fits(grown) then Some(Encode(grown) + Encode(FreeBox())) else None
  {
    FreePadding();
    if Fits(chain) {
      assert [] + Encode(chain) == Encode(chain);
    }
  }

  /** The bytes of the grown `moov`, and when it fits, its chain fits too. */
  lemma GrownMoovBytes(created: seq<Box>, m: Box)
    ensures Encode(GrownMoov(created, m)) == Frame(Moov, EncodeAll(m.children) + Encode(Chain(created)))
    ensures Fits(GrownMoov(created, m)) ==> Fits(Chain(created))
  {
    var grown := GrownMoov(created, m);
    EncodeAllSnoc(m.children, Chain(created));
    assert [] + EncodeAll(grown.children) == EncodeAll(grown.children);
    if Fits(grown) {
      EncodeAllLength(grown.children, |m.children|);
    }
  }

  /** A file whose only box the walk enters is a `moov`, at index `i`, with no
      payload of its own. */
  predicate BootstrapShape(file: seq<Box>, i: nat)
  {
    i < |file| && file[i].typ == Moov && file[i].payload == []
    && AllPlain(file[..i]) && AllPlain(file[i + 1..]) && AllPlain(file[i].children)
  }

  /** The file the bootstrap produces, as boxes. */
  function Bootstrapped(created: seq<Box>, file: seq<Box>, i: nat): seq<Box>
    requires i < |file|
  {
    file[..i] + [GrownMoov(created, file[i]), FreeBox()] + file[i + 1..]
  }

  /** In a file of that shape the only `moov` is the one at `i`. */
  lemma OnlyMoov(file: seq<Box>, i: nat, b: Box)
    requires BootstrapShape(file, i) && b in file && b.typ == Moov
    ensures b == file[i]
  {
    var j :| 0 <= j < |file| && file[j] == b;
  }

  /** No box of `bs` has type `t`. */
  lemma {:induction false} SelectNone(bs: seq<Box>, t: BoxType)
    requires forall x :: x in bs ==> x.typ != t
    ensures Presence.Select(bs, t) == []
  {
    if bs != [] {
      assert bs[0] in bs;
      SelectNone(bs[1..], t);
    }
  }

  /** The boxes `moov/udta/meta` leads to, and the `ilst` boxes among them. */
  lemma IlstPathSteps(bs: seq<Box>)
    ensures Presence.Extract(bs, Presence.IlstPath)
         == Presence.Select(Presence.Children(Presence.Select(Presence.Children(Presence.Select(
              Presence.Children(Presence.Select(bs, Moov)), Udta)), Meta)), Ilst)
  {
    var c1 := Presence.Children(Presence.Select(bs, Moov));
    var c2 := Presence.Children(Presence.Select(c1, Udta));
    var c3 := Presence.Children(Presence.Select(c2, Meta));
    assert Presence.IlstPath[..3] == [Moov, Udta, Meta];
    assert Presence.Level(bs, [Moov, Udta, Meta]) == Presence.Level(c1, [Udta, Meta]);
    assert Presence.Level(c1, [Udta, Meta]) == Presence.Level(c2, [Meta]);
    assert Presence.Level(c2, [Meta]) == Presence.Level(c3, []);
  }

  /** Such a file has no `moov/udta/meta/ilst` path, so the rewrite bootstraps. */
  lemma ShapeHasNoIlst(file: seq<Box>, i: nat)
    requires BootstrapShape(file, i)
    ensures Presence.IlstCodes(file).None?
  {
    var l1 := Presence.Select(file, Moov);
    var c1 := Presence.Children(l1);
    forall x | x in c1
      ensures x.typ != Udta
    {
      var b :| b in l1 && x in b.children;
      OnlyMoov(file, i, b);
      var k :| 0 <= k < |file[i].children| && file[i].children[k] == x;
    }
    SelectNone(c1, Udta);
    IlstPathSteps(file);
  }

  /** A run of copied boxes, one box, another run of copied boxes: the bytes of
      the first run, the box's visit, the bytes of the second run. */
  lemma PlainSplice(env: Env, pre: seq<Box>, m: Box, post: seq<Box>, key: string)
    requires AllPlain(pre) && AllPlain(post)
    ensures VisitAll(env, pre + [m] + post, key).out
         == Cat(Some(EncodeAll(pre)), Cat(Visit(env, m, key).out, Some(EncodeAll(post))))
  {
    assert pre + [m] + post == pre + ([m] + post);
    VisitAllAppend(env, pre, [m] + post, key);
    PlainRunCopied(env, pre, key);
    VisitAllAppend(env, [m], post, key);
    VisitOne(env, m, key);
    PlainRunCopied(env, post, Visit(env, m, key).key);
  }

  /** The same, with the run split around its box at `i`. */
  lemma FileSplice(env: Env, file: seq<Box>, i: nat, key: string)
    requires i < |file| && AllPlain(file[..i]) && AllPlain(file[i + 1..])
    ensures VisitAll(env, file, key).out
         == Cat(Some(EncodeAll(file[..i])), Cat(Visit(env, file[i], key).out, Some(EncodeAll(file[i + 1..]))))
  {
    assert file == file[..i] + [file[i]] + file[i + 1..];
    PlainSplice(env, file[..i], file[i], file[i + 1..], key);
  }

  /** The walk over a file of that shape when the rewrite bootstraps. */
  lemma BootstrapWalk(env: Env, file: seq<Box>, i: nat)
    requires env.createIlst && BootstrapShape(file, i)
    ensures VisitAll(env, file, "").out
         == if Fits(GrownMoov(NewAtoms(env), file[i])) then Some(EncodeAll(Bootstrapped(NewAtoms(env), file, i))) else None
  {
    var grown := GrownMoov(NewAtoms(env), file[i]);
    FileSplice(env, file, i, "");
    PlainRunCopied(env, file[i].children, "");
    BootstrapMoov(env, file[i], "", file[i].children);
    SpliceBytes(file[..i], grown, FreeBox(), file[i + 1..],
                if Fits(grown) then Some(Encode(grown) + Encode(FreeBox())) else None);
  }

  /** The bytes of two boxes spliced between two runs, when the first box may not
      fit. */
  lemma SpliceBytes(pre: seq<Box>, b0: Box, b1: Box, post: seq<Box>, mid: Out)
    requires mid == if Fits(b0) then Some(Encode(b0) + Encode(b1)) else None
    ensures Cat(Some(EncodeAll(pre)), Cat(mid, Some(EncodeAll(post))))
         == if Fits(b0) then Some(EncodeAll(pre + [b0, b1] + post)) else None
  {
    TwoChildren(b0, b1);
    EncodeAllAppend(pre, [b0, b1]);
    EncodeAllAppend(pre + [b0, b1], post);
    Assoc(EncodeAll(pre), EncodeAll([b0, b1]), EncodeAll(post));
  }

  /** The whole rewrite of a file without `ilst`, whose top-level boxes other than
      `moov` are copied through and whose `moov` (with no payload of its own) has
      children the walk turns into `kids`: the boxes before and after `moov` are
      kept, `moov` holds `kids` and then the new `udta/meta/hdlr,ilst` chain, and a
      2048-byte free box follows it. The rewrite fails exactly when that `moov`
      does not fit its 32-bit size field. */
  lemma BootstrapOutput(file: seq<Box>, i: nat, tags: Tags, atomOrder: seq<string>, customOrder: seq<string>,
                        kids: seq<Box>)
    requires i < |file| && file[i].typ == Moov && file[i].payload == []
    requires AllPlain(file[..i]) && AllPlain(file[i + 1..])
    requires Presence.IlstCodes(file).None?
    requires VisitAll(EnvOf(file, tags, atomOrder, customOrder), file[i].children, "").out == Some(EncodeAll(kids))
    ensures var env := EnvOf(file, tags, atomOrder, customOrder);
            var grown := GrownMoov(NewAtoms(env), Box(Moov, [], kids));
            env.createIlst
            && Rewrite(file, tags, atomOrder, customOrder)
               == (if Fits(grown) then Some(EncodeAll(file[..i] + [grown, FreeBox()] + file[i + 1..])) else None)
  {
    var env := EnvOf(file, tags, atomOrder, customOrder);
    var grown := GrownMoov(NewAtoms(env), Box(Moov, [], kids));
    FileSplice(env, file, i, "");
    BootstrapMoov(env, file[i], "", kids);
    SpliceBytes(file[..i], grown, FreeBox(), file[i + 1..],
                if Fits(grown) then Some(Encode(grown) + Encode(FreeBox())) else None);
  }

  /** The same for a file whose `moov` holds only boxes the walk copies through:
      `moov` keeps its children and gets the chain after them. */
  lemma PlainBootstrapOutput(file: seq<Box>, i: nat, tags: Tags, atomOrder: seq<string>, customOrder: seq<string>)
    requires BootstrapShape(file, i)
    ensures var env := EnvOf(file, tags, atomOrder, customOrder);
            var created := NewAtoms(env);
            env.createIlst
            && Rewrite(file, tags, atomOrder, customOrder)
               == (if Fits(GrownMoov(created, file[i])) then Some(EncodeAll(Bootstrapped(created, file, i))) else None)
  {
    ShapeHasNoIlst(file, i);
    BootstrapWalk(EnvOf(file, tags, atomOrder, customOrder), file, i);
  }

  /** One step down a path of box types when a single box `b` of `bs` has the
      step's type: the boxes reached are `b`'s children. */
  lemma OnlyStep(bs: seq<Box>, t: BoxType, b: Box)
    requires b in bs && b.typ == t
    requires forall x :: x in bs && x.typ == t ==> x == b
    ensures forall x :: x in Presence.Children(Presence.Select(bs, t)) <==> x in b.children
  {
    var l := Presence.Select(bs, t);
    assert forall x :: x in l <==> x == b;
  }

  /** Two runs with the same members have the same types. */
  lemma SameTypes(a: seq<Box>, b: seq<Box>)
    requires forall x :: x in a <==> x in b
    ensures (set x | x in a :: x.typ) == (set x | x in b :: x.typ)
  {
  }

  /** In the bootstrapped file the grown `moov` is the only `moov`. */
  lemma GrownIsOnlyMoov(created: seq<Box>, file: seq<Box>, i: nat)
    requires BootstrapShape(file, i)
    ensures GrownMoov(created, file[i]) in Bootstrapped(created, file, i)
    ensures forall x :: x in Bootstrapped(created, file, i) && x.typ == Moov ==> x == GrownMoov(created, file[i])
  {
    var f := Bootstrapped(created, file, i);
    var grown := GrownMoov(created, file[i]);
    ChainTypesDiffer();
    assert f[i] == grown;
    forall x | x in f && x.typ == Moov
      ensures x == grown
    {
      var j :| 0 <= j < |f| && f[j] == x;
    }
  }

  /** Under the grown `moov` the new chain is the only `udta`. */
  lemma ChainIsOnlyUdta(created: seq<Box>, file: seq<Box>, i: nat)
    requires BootstrapShape(file, i)
    ensures Chain(created) in GrownMoov(created, file[i]).children
    ensures forall x :: x in GrownMoov(created, file[i]).children && x.typ == Udta ==> x == Chain(created)
  {
    var kids := GrownMoov(created, file[i]).children;
    assert kids[|file[i].children|] == Chain(created);
    forall x | x in kids && x.typ == Udta
      ensures x == Chain(created)
    {
      var k :| 0 <= k < |kids| && kids[k] == x;
    }
  }

  /** Below the only `udta` of a level, the `meta/ilst` steps reach the new
      `ilst` and nothing else. */
  lemma ChainLevels(c1: seq<Box>, created: seq<Box>)
    requires Chain(created) in c1
    requires forall x :: x in c1 && x.typ == Udta ==> x == Chain(created)
    ensures forall x :: x in Presence.Select(Presence.Children(Presence.Select(
                           Presence.Children(Presence.Select(c1, Udta)), Meta)), Ilst)
                    <==> x == NewIlst(created)
  {
    OnlyStep(c1, Udta, Chain(created));
    var c2 := Presence.Children(Presence.Select(c1, Udta));
    assert NewMeta(created) in Chain(created).children;
    OnlyStep(c2, Meta, NewMeta(created));
    var c3 := Presence.Children(Presence.Select(c2, Meta));
    ChainTypesDiffer();
    assert NewIlst(created) in NewMeta(created).children;
    SelectOnly(c3, Ilst, NewIlst(created));
  }

  /** Select when a single box of `bs` has type `t`. */
  lemma SelectOnly(bs: seq<Box>, t: BoxType, b: Box)
    requires b in bs && b.typ == t
    requires forall x :: x in bs && x.typ == t ==> x == b
    ensures forall x :: x in Presence.Select(bs, t) <==> x == b
  {
  }

  /** The boxes below the bootstrapped file's `moov`: its old children and the
      new chain, the only `udta` among them. */
  lemma MoovLevel(created: seq<Box>, file: seq<Box>, i: nat)
    requires BootstrapShape(file, i)
    ensures var c1 := Presence.Children(Presence.Select(Bootstrapped(created, file, i), Moov));
            Chain(created) in c1 && forall x :: x in c1 && x.typ == Udta ==> x == Chain(created)
  {
    GrownIsOnlyMoov(created, file, i);
    OnlyStep(Bootstrapped(created, file, i), Moov, GrownMoov(created, file[i]));
    ChainIsOnlyUdta(created, file, i);
  }

  /** A second rewrite of the bootstrapped file finds the `ilst` the first one
      created, holding exactly the atoms it created: the classification then marks
      their names as present. */
  lemma BootstrapFoundOnReread(created: seq<Box>, file: seq<Box>, i: nat)
    requires BootstrapShape(file, i)
    ensures Presence.IlstCodes(Bootstrapped(created, file, i)) == Some(set b | b in created :: b.typ)
  {
    var f := Bootstrapped(created, file, i);
    MoovLevel(created, file, i);
    var c1 := Presence.Children(Presence.Select(f, Moov));
    ChainLevels(c1, created);
    IlstPathSteps(f);
    var ilsts := Presence.Extract(f, Presence.IlstPath);
    assert NewIlst(created) in ilsts;
    assert forall x :: x in Presence.Children(ilsts) <==> x in created;
    SameTypes(Presence.Children(ilsts), created);
  }

  /** The fields the bootstrap classification marks that name no catalog atom:
      their code is Go's zero box type. */
  const ZeroTypeFields: set<string> :=
    {"CoversData", "Delete", "DiskNumber", "ContentRatingStr", "TrackNumber", "yearStr"}

  /** On bootstrap each of them is marked "must create"; none is a catalog name or
      one the text loop passes over. */
  lemma ZeroTypeFieldMarked(f: string)
    requires f in ZeroTypeFields
    ensures f in Presence.Classification(None) && Presence.Classification(None)[f]
    ensures f !in Names && f !in Special && AtomCode(f) == ZeroType
  {
    var fs := FieldNames;
    var i := ZeroTypeFieldIndex(f);
    assert f in Presence.FieldKeys(fs[i], true);
    Presence.KeysOfMember(fs, true, f);
    ZeroTypeNotName(f);
  }

  /** None of them is a catalog name. */
  lemma ZeroTypeNotName(f: string)
    requires f in ZeroTypeFields
    ensures f !in Names
  {
    forall j | 0 <= j < |Names| ensures Names[j] != f {
    }
  }

  /** Where each of them sits among the fields. */
  lemma ZeroTypeFieldIndex(f: string) returns (i: nat)
    requires f in ZeroTypeFields
    ensures i < |FieldNames| && FieldNames[i] == f && f !in Presence.Unclassified
  {
    i := if f == "CoversData" then 6 else if f == "Delete" then 8 else if f == "DiskNumber" then 9
         else if f == "ContentRatingStr" then 13 else if f == "TrackNumber" then 16 else 20;
  }

  /** How reflection reads them: the first four as Go's placeholders for their
      types, which are never empty, ... */
  lemma ZeroTypeTexts(t: Tags)
    ensures TextValue(t, "CoversData") == "<[][]uint8 Value>"
    ensures TextValue(t, "Delete") == "<[]string Value>"
    ensures TextValue(t, "DiskNumber") == "<int Value>" && TextValue(t, "TrackNumber") == "<int Value>"
    ensures TextValue(t, "ContentRatingStr") == t.contentRatingStr && TextValue(t, "yearStr") == t.yearStr
  {
    CoversDataText(t);
    DeleteText(t);
    RatingStrText(t);
    YearStrText(t);
  }

  lemma CoversDataText(t: Tags)
    ensures FieldString(t, "CoversData") == "<[][]uint8 Value>"
  {
  }

  lemma DeleteText(t: Tags)
    ensures FieldString(t, "Delete") == "<[]string Value>"
  {
  }

  lemma RatingStrText(t: Tags)
    ensures FieldString(t, "ContentRatingStr") == t.contentRatingStr
  {
  }

  lemma YearStrText(t: Tags)
    ensures FieldString(t, "yearStr") == t.yearStr
  {
  }

  /** On bootstrap every such field with a non-empty text gets an atom of the zero
      box type in the new `ilst`, carrying that text: always for `CoversData`,
      `Delete`, `DiskNumber` and `TrackNumber`, and for `ContentRatingStr` and
      `yearStr` when they are set (`yearStr` thus appears twice, once under the
      year's own atom). */
  lemma BootstrapWritesZeroTypeAtoms(env: Env, f: string)
    requires env.atoms == Presence.Classification(None)
    requires Enumerates(env.atomOrder, env.atoms.Keys)
    requires f in ZeroTypeFields && TextValue(env.tags, f) != ""
    ensures MetaBox(ZeroType, Text(TextValue(env.tags, f))) in NewAtoms(env)
  {
    ZeroTypeFieldMarked(f);
    TextAtomsComplete(env, f);
    var head := FixedAtoms(env.tags) + Gather(TextStep(env.tags, env.atoms), env.atomOrder);
    assert NewAtoms(env) == head + Gather(CustomStep(env.tags.custom), env.customOrder);
    assert (head + Gather(CustomStep(env.tags.custom), env.customOrder))[..|head|] == head;
  }

  /** ... and those are the only atoms of the zero box type a bootstrap writes. */
  lemma ZeroTypeAtomsOnlyThose(env: Env, b: Box)
    requires env.atoms == Presence.Classification(None)
    requires b in NewAtoms(env) && b.typ == ZeroType
    ensures exists f :: f in ZeroTypeFields && TextValue(env.tags, f) != ""
                        && b == MetaBox(ZeroType, Text(TextValue(env.tags, f)))
  {
    FixedZeroFree(env.tags);
    assert Freeform != ZeroType;
    if b in Gather(TextStep(env.tags, env.atoms), env.atomOrder) {
      TextAtomsSound(env, b);
      var name :| name in env.atoms && env.atoms[name] && name !in Special
                  && TextValue(env.tags, name) != "" && b == MetaBox(AtomCode(name), Text(TextValue(env.tags, name)));
      ZeroTypeName(name);
    } else if b in Gather(CustomStep(env.tags.custom), env.customOrder) {
      CustomAtomsSound(env, b);
    }
  }

  /** The atoms written before the text loop have catalog codes. */
  lemma FixedZeroFree(t: Tags)
    ensures forall b :: b in FixedAtoms(t) ==> b.typ != ZeroType
  {
    assert CoverCode[0] != 0 && TrackCode[0] != 0 && RatingCode[0] != 0 && DiskCode[0] != 0;
  }

  /** A bootstrap key whose code is the zero box type is one of those fields. */
  lemma ZeroTypeName(name: string)
    requires name in Presence.Classification(None) && AtomCode(name) == ZeroType
    ensures name in ZeroTypeFields
  {
    TableIsBijective();
    assert name !in Names;
    Presence.KeysRule(FieldNames, name);
    var i :| 0 <= i < |FieldNames| && FieldNames[i] !in Presence.Unclassified && FieldNames[i] == name;
    forall j | 0 <= j < |FieldNames|
      ensures FieldNames[j] in ZeroTypeFields || FieldNames[j] in Presence.Unclassified || FieldNames[j] in Names
    {
    }
  }
}
