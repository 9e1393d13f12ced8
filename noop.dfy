/** The edit that asks for nothing. On a file that already has an `ilst` the
    rewrite gives the file back byte for byte, provided the walk meets no atom
    the engine changes even then: `rtng`, whose `data` atom is dropped unless a
    rating outside 0..2 is asked for, and `cpil`, `soal` and `soaa`, whose names
    reflection reads as "<invalid Value>", so that their `data` atoms are
    rewritten to hold that text. */
module NoOpEdit {
  import opened Basics
  import opened Boxes
  import opened Catalog
  import opened TagSet
  import opened Creation
  import opened Emitters
  import opened Existing
  import opened Dispatch
  import Presence
  import Outcomes

  /** Go's zero `Tags`: every text empty, every number 0, no covers, no custom
      entries, nothing to delete. */
  function EmptyTags(): Tags
  {
    Tags("", "", "", "", "", "", [], map[], [], 0, 0, "", 0, "", "", "", 0, 0, "", 0, "")
  }

  /** The catalog names whose existing atoms the empty edit still changes. */
  const Touched: set<string> := {"ContentRating", "compilation", "albumSort", "artistSort"}

  /** The catalog names the empty edit has nothing for. */
  const TextNames: set<string> :=
    {"Album", "AlbumArtist", "Artist", "Comment", "Composer", "Copyright", "Genre", "Label",
     "Title", "Year", "UnsyncedLyrics"}

  /** Every box the walk enters in `b` (a container, an `ilst`, a catalog atom or
      a box of the zero type) fits its size field, and every catalog atom among
      them has a code present in the file's `ilst` (`codes`) and is no `Touched`
      one. Boxes the walk copies whole, and `data` atoms, are not constrained. */
  predicate Ordinary(codes: set<BoxType>, b: Box)
    decreases b
  {
    (b.typ == Moov || b.typ == Udta || b.typ == Meta || b.typ == Ilst || b.typ == ContainsAtom(b.typ, AtomsList()))
    ==> Fits(b)
        && (b.typ in Codes ==> b.typ in codes && GetTag(b.typ) !in Touched)
        && forall i :: 0 <= i < |b.children| ==> Ordinary(codes, b.children[i])
  }

  /** Under the cursor `k` the `data` case copies every `data` atom through. */
  ghost predicate QuietKey(env: Env, k: string)
  {
    k == "" || (!NeedCreate(env.atoms, k) && forall p :: ExistingDecision(env.tags, k, p).CopyOriginal?)
  }

  /** The settings of a rewrite that creates nothing, drops nothing and keeps the
      `data` atoms of every catalog atom it can meet. */
  ghost predicate Inert(env: Env, codes: set<BoxType>)
  {
    !env.createIlst && NewAtoms(env) == [] && env.tags.coversData == [] && env.tags.delete == []
    && forall t :: t in codes && t in Codes && GetTag(t) !in Touched ==> QuietKey(env, GetTag(t))
  }

  // ---------------------------------------------------------------------------
  // The walk under such settings

  /** A `data` atom met under a quiet cursor is copied, and the cursor is
      cleared. */
  lemma DataKept(env: Env, d: Box, key: string)
    requires d.typ == DataCode && QuietKey(env, key)
    ensures Visit(env, d, key) == Walk(Some(Encode(d)), "")
  {
    Outcomes.DataVisit(env, d, key);
    if key != "" {
      assert ExistingDecision(env.tags, key, d.payload).CopyOriginal?;
    }
  }

  /** Copying a box that fits whose children came out unchanged gives the box. */
  lemma CopyKeeps(env: Env, b: Box, key: string)
    requires Fits(b) && VisitAll(env, b.children, key).out == Some(EncodeAll(b.children))
    ensures Copy(env, b, key) == Walk(Some(Encode(b)), VisitAll(env, b.children, key).key)
  {
  }

  /** An `ilst` that fits, when nothing is created, whose children came out
      unchanged, is written back unchanged. */
  lemma IlstKeeps(env: Env, b: Box, key: string)
    requires Fits(b) && NewAtoms(env) == []
    requires VisitAll(env, b.children, key).out == Some(EncodeAll(b.children))
    ensures CreateAndWrite(env, b, key) == Walk(Some(Encode(b)), VisitAll(env, b.children, key).key)
  {
    assert [] + EncodeAll(b.children) == EncodeAll(b.children);
  }

  /** An `ilst` goes to `createAndWrite`. */
  lemma IlstVisit(env: Env, b: Box, key: string)
    requires b.typ == Ilst
    ensures Visit(env, b, key) == CreateAndWrite(env, b, key)
  {
    assert Ilst[0] != Moov[0] && Ilst[0] != Udta[0] && Ilst[0] != Meta[0];
  }

  /** A catalog atom, or a box of the zero type, met with no covers to write and
      nothing to delete: it is copied under its own name. */
  lemma CatalogCopied(env: Env, b: Box, key: string)
    requires env.tags.coversData == [] && env.tags.delete == []
    requires b.typ != Moov && b.typ != Udta && b.typ != Meta && b.typ != Ilst
    requires b.typ == ContainsAtom(b.typ, AtomsList())
    ensures Visit(env, b, key) == Copy(env, b, GetTag(b.typ))
  {
    assert !ContainsTag(env.tags.delete, GetTag(b.typ));
    assert VisitAtom(env, b, key) == CatalogAtom(env, b, key);
    assert Visit(env, b, key) == VisitAtom(env, b, key);
  }

  /** ... and under these settings its name is a quiet cursor. */
  lemma CatalogKeyQuiet(env: Env, codes: set<BoxType>, b: Box)
    requires Inert(env, codes) && Ordinary(codes, b)
    requires b.typ == ContainsAtom(b.typ, AtomsList())
    ensures QuietKey(env, GetTag(b.typ))
  {
    if b.typ in Codes {
      assert b.typ in codes && GetTag(b.typ) !in Touched;
    }
  }

  /** The walk gives back every box it is handed, byte for byte, and leaves a quiet
      cursor. */
  lemma {:induction false} VisitKeeps(env: Env, codes: set<BoxType>, b: Box, key: string)
    requires Inert(env, codes) && QuietKey(env, key) && Ordinary(codes, b)
    ensures Visit(env, b, key).out == Some(Encode(b)) && QuietKey(env, Visit(env, b, key).key)
    decreases b, 1
  {
    if b.typ == Moov || b.typ == Udta || b.typ == Meta {
      VisitAllKeeps(env, codes, b.children, key);
      CopyKeeps(env, b, key);
    } else if b.typ == Ilst {
      VisitAllKeeps(env, codes, b.children, key);
      IlstVisit(env, b, key);
      IlstKeeps(env, b, key);
    } else if b.typ == ContainsAtom(b.typ, AtomsList()) {
      CatalogCopied(env, b, key);
      CatalogKeyQuiet(env, codes, b);
      VisitAllKeeps(env, codes, b.children, GetTag(b.typ));
      CopyKeeps(env, b, GetTag(b.typ));
    } else if b.typ == DataCode {
      DataKept(env, b, key);
    } else {
      Outcomes.PlainCopied(env, b, key);
    }
  }

  /** ... and so does every run of boxes. */
  lemma {:induction false} VisitAllKeeps(env: Env, codes: set<BoxType>, bs: seq<Box>, key: string)
    requires Inert(env, codes) && QuietKey(env, key)
    requires forall i :: 0 <= i < |bs| ==> Ordinary(codes, bs[i])
    ensures VisitAll(env, bs, key).out == Some(EncodeAll(bs)) && QuietKey(env, VisitAll(env, bs, key).key)
    decreases bs, 0
  {
    if bs != [] {
      var n := |bs| - 1;
      OrdinaryPrefix(codes, bs, n);
      VisitAllKeeps(env, codes, bs[..n], key);
      var prev := VisitAll(env, bs[..n], key);
      VisitKeeps(env, codes, bs[n], prev.key);
      RunStep(env, bs, key);
    }
  }

  /** A run comes out unchanged when all its boxes but the last did and the last
      did too, and it leaves the last box's cursor. */
  lemma RunStep(env: Env, bs: seq<Box>, key: string)
    requires bs != []
    requires VisitAll(env, bs[..|bs| - 1], key).out == Some(EncodeAll(bs[..|bs| - 1]))
    requires Visit(env, bs[|bs| - 1], VisitAll(env, bs[..|bs| - 1], key).key).out == Some(Encode(bs[|bs| - 1]))
    ensures VisitAll(env, bs, key)
         == Walk(Some(EncodeAll(bs)), Visit(env, bs[|bs| - 1], VisitAll(env, bs[..|bs| - 1], key).key).key)
  {
    LastBytes(bs);
  }

  /** A prefix of a run of ordinary boxes is one. */
  lemma OrdinaryPrefix(codes: set<BoxType>, bs: seq<Box>, n: nat)
    requires n <= |bs| && forall i :: 0 <= i < |bs| ==> Ordinary(codes, bs[i])
    ensures forall i :: 0 <= i < n ==> Ordinary(codes, bs[..n][i])
  {
    assert forall i :: 0 <= i < n ==> bs[..n][i] == bs[i];
  }

  /** The bytes of a run are those of all its boxes but the last, then the last. */
  lemma LastBytes(bs: seq<Box>)
    requires bs != []
    ensures EncodeAll(bs) == EncodeAll(bs[..|bs| - 1]) + Encode(bs[|bs| - 1])
  {
    SnocSplit(bs);
    EncodeAllSnoc(bs[..|bs| - 1], bs[|bs| - 1]);
  }

  // ---------------------------------------------------------------------------
  // The empty edit's settings

  /** The names of `TextNames` read as empty text in the empty edit. */
  lemma EmptyText(k: string)
    requires k in TextNames
    ensures TextValue(EmptyTags(), k) == ""
  {
  }

  /** A catalog name neither `Touched` nor written before the text loop is one of
      `TextNames`. */
  lemma QuietNames(k: string)
    requires k in Names && k !in Touched && k !in Special
    ensures k in TextNames
  {
  }

  /** The empty edit keeps the `data` atom of every catalog atom but the `Touched`
      ones. */
  lemma EmptyEditKeeps(k: string, p: seq<Byte>)
    requires k in Names && k !in Touched
    ensures ExistingDecision(EmptyTags(), k, p).CopyOriginal?
  {
    KeptWhenNothingToWrite(EmptyTags(), k, p);
    if k !in Special {
      QuietNames(k);
      EmptyText(k);
    }
  }

  /** The names of the catalog no field is keyed by. */
  lemma UnkeyedNames(x: string)
    requires x in {"compilation", "albumSort", "artistSort"}
    ensures x !in FieldNames && x != "Track" && x != "Disk"
  {
    forall j | 0 <= j < |FieldNames| ensures FieldNames[j] != x {
    }
  }

  /** With an `ilst`, every key of the classification is a catalog name keyed by a
      field, so none of `compilation`, `albumSort` and `artistSort`. */
  lemma ClassifiedNames(codes: set<BoxType>, k: string)
    requires k in Presence.Classification(Some(codes))
    ensures k in Names && k !in {"compilation", "albumSort", "artistSort"}
  {
    Presence.KeysRule(FieldNames, k);
    var i :| 0 <= i < |FieldNames| && FieldNames[i] !in Presence.Unclassified && Presence.Key(FieldNames[i]) == k;
    if k in {"compilation", "albumSort", "artistSort"} {
      UnkeyedNames(k);
      assert false;
    }
  }

  /** The empty edit creates no text atom. */
  lemma NoTextAtom(codes: set<BoxType>, k: string)
    ensures TextAtomFor(EmptyTags(), Presence.Classification(Some(codes)), k) == []
  {
    var atoms := Presence.Classification(Some(codes));
    if k !in Special && NeedCreate(atoms, k) {
      ClassifiedNames(codes, k);
      QuietNames(k);
      EmptyText(k);
    }
  }

  /** A map iteration whose every step creates nothing creates nothing. */
  lemma {:induction false} GatherNothing(step: string -> seq<Box>, order: seq<string>)
    requires forall k :: step(k) == []
    ensures Gather(step, order) == []
  {
    if order != [] {
      GatherNothing(step, order[..|order| - 1]);
    }
  }

  /** On a file with an `ilst`, the empty edit's settings are inert. */
  lemma EmptyEditInert(file: seq<Box>, atomOrder: seq<string>, customOrder: seq<string>)
    requires Presence.IlstCodes(file).Some?
    ensures Inert(EnvOf(file, EmptyTags(), atomOrder, customOrder), Presence.IlstCodes(file).value)
  {
    var codes := Presence.IlstCodes(file).value;
    var env := EnvOf(file, EmptyTags(), atomOrder, customOrder);
    NothingCreated(codes, env);
    forall t | t in codes && t in Codes && GetTag(t) !in Touched
      ensures QuietKey(env, GetTag(t))
    {
      QuietCode(codes, env, t);
    }
  }

  /** The empty edit creates no atom. */
  lemma NothingCreated(codes: set<BoxType>, env: Env)
    requires env.tags == EmptyTags() && env.atoms == Presence.Classification(Some(codes))
    ensures NewAtoms(env) == []
  {
    forall k ensures TextStep(EmptyTags(), env.atoms)(k) == [] {
      NoTextAtom(codes, k);
    }
    GatherNothing(TextStep(EmptyTags(), env.atoms), env.atomOrder);
    GatherNothing(CustomStep(map[]), env.customOrder);
  }

  /** The name of a code present in `ilst`, if not `Touched`, is a quiet cursor
      for the empty edit. */
  lemma QuietCode(codes: set<BoxType>, env: Env, t: BoxType)
    requires env.tags == EmptyTags() && env.atoms == Presence.Classification(Some(codes))
    requires t in codes && t in Codes && GetTag(t) !in Touched
    ensures QuietKey(env, GetTag(t))
  {
    var i :| 0 <= i < |Codes| && Codes[i] == t;
    assert GetTag(t) == Names[i];
    CodeNotCreated(codes, t);
    EmptyEditKeepsAll(GetTag(t));
  }

  /** With an `ilst`, the name of a code present in it is not marked for
      creation. */
  lemma CodeNotCreated(codes: set<BoxType>, t: BoxType)
    requires t in codes && t in Codes
    ensures !NeedCreate(Presence.Classification(Some(codes)), GetTag(t))
  {
    AtomCodeInvertsGetTag(t);
  }

  /** The empty edit keeps every `data` payload under such a name. */
  lemma EmptyEditKeepsAll(k: string)
    requires k in Names && k !in Touched
    ensures forall p :: ExistingDecision(EmptyTags(), k, p).CopyOriginal?
  {
    forall p ensures ExistingDecision(EmptyTags(), k, p).CopyOriginal? {
      EmptyEditKeeps(k, p);
    }
  }

  /** The empty edit on a file with an `ilst`, none of whose catalog atoms is a
      `Touched` one or one whose code the `ilst` lacks, and whose boxes the walk
      enters all fit: the rewrite succeeds and writes the file unchanged. */
  lemma NoOpRewrite(file: seq<Box>, atomOrder: seq<string>, customOrder: seq<string>)
    requires Presence.IlstCodes(file).Some?
    requires forall i :: 0 <= i < |file| ==> Ordinary(Presence.IlstCodes(file).value, file[i])
    ensures Rewrite(file, EmptyTags(), atomOrder, customOrder) == Some(EncodeAll(file))
  {
    var env := EnvOf(file, EmptyTags(), atomOrder, customOrder);
    var codes := Presence.IlstCodes(file).value;
    EmptyEditInert(file, atomOrder, customOrder);
    VisitAllKeeps(env, codes, file, "");
  }
}
