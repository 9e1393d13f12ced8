/** The atoms the rewrite creates inside `ilst`, shared by `createAndWrite` and
    `createIlstAndWrite`: covers, track, rating and disk first, in that fixed
    order, then one text atom per classified field, then one freeform atom per
    custom entry. The last two follow Go's map iteration order, which is not
    fixed; the model takes that order as a parameter and proves that every order
    creates the same atoms. */
module Creation {
  import opened Basics
  import opened Boxes
  import opened BoxWriter
  import opened Emitters
  import opened Catalog
  import opened TagSet
  import Text

  /** What a rewrite works from: the edit, the classification of the existing
      atoms, the bootstrap flag, and the order in which this run's Go map
      iterations visit the classification and the custom entries. */
  datatype Env = Env(
    tags: Tags,
    atoms: map<string, bool>,
    createIlst: bool,
    atomOrder: seq<string>,
    customOrder: seq<string>)

  predicate Distinct(s: seq<string>)
  {
    forall i, j :: 0 <= i < j < |s| ==> s[i] != s[j]
  }

  /** `order` visits every key of the map once: an iteration order Go may pick. */
  predicate Enumerates(order: seq<string>, keys: set<string>)
  {
    Distinct(order) && (forall k :: k in order ==> k in keys) && (forall k :: k in keys ==> k in order)
  }

  predicate Ordered(env: Env)
  {
    Enumerates(env.atomOrder, env.atoms.Keys) && Enumerates(env.customOrder, env.tags.custom.Keys)
  }

  /** The names the text loop passes over: their atoms are written before it. */
  const Special: set<string> := {"Cover", "Track", "Disk", "ContentRating"}

  /** `atoms[name]`: a name the map does not hold reads as Go's zero value. */
  function NeedCreate(atoms: map<string, bool>, name: string): (r: bool)
    ensures r <==> name in atoms && atoms[name]
  {
    if name in atoms then atoms[name] else false
  }

  /** The text atom one step of the classification loop creates: none for the
      names whose atoms were written before the loop, for a name not marked "must
      create" and for an empty value; otherwise one. */
  function TextAtomFor(tags: Tags, atoms: map<string, bool>, name: string): (r: seq<Box>)
    ensures |r| <= 1
  {
    if name in Special || !NeedCreate(atoms, name) || TextValue(tags, name) == "" then []
    else [MetaBox(AtomCode(name), Text(TextValue(tags, name)))]
  }

  /** The freeform atom one step of the custom-entry loop creates: none for an
      empty value, otherwise one holding the value upper-cased. */
  function CustomAtomFor(custom: map<string, string>, key: string): (r: seq<Box>)
    ensures |r| <= 1
  {
    if key !in custom || custom[key] == "" then []
    else [CustomBox(key, Text(Text.ToUpper(custom[key])))]
  }

  function TextStep(tags: Tags, atoms: map<string, bool>): string -> seq<Box>
  {
    name => TextAtomFor(tags, atoms, name)
  }

  function CustomStep(custom: map<string, string>): string -> seq<Box>
  {
    key => CustomAtomFor(custom, key)
  }

  /** The atoms a map iteration in `order` creates, step by step, in that order. */
  function Gather(step: string -> seq<Box>, order: seq<string>): seq<Box>
  {
    if order == [] then []
    else Gather(step, order[..|order| - 1]) + step(order[|order| - 1])
  }

  function CoverPart(t: Tags): seq<Box>
  {
    if |t.coversData| > 0 then [CoversBox(t.coversData)] else []
  }

  function TrackPart(t: Tags): seq<Box>
  {
    if t.trackNumber > 0 then [MetaBox(TrackCode, Binary(NumberPayload(t.trackNumber, t.trackTotal)))] else []
  }

  function RatingPart(t: Tags): seq<Box>
  {
    if t.contentRating > 0 then [MetaBox(RatingCode, Binary(RatingPayload(t.contentRating)))] else []
  }

  function DiskPart(t: Tags): seq<Box>
  {
    if t.diskNumber > 0 then [MetaBox(DiskCode, Binary(NumberPayload(t.diskNumber, t.diskTotal)))] else []
  }

  /** The atoms whose place does not depend on map order. */
  function FixedAtoms(t: Tags): seq<Box>
  {
    CoverPart(t) + TrackPart(t) + RatingPart(t) + DiskPart(t)
  }

  /** Every atom a rewrite creates, in the order it writes them. */
  function NewAtoms(env: Env): seq<Box>
  {
    FixedAtoms(env.tags) + Gather(TextStep(env.tags, env.atoms), env.atomOrder)
    + Gather(CustomStep(env.tags.custom), env.customOrder)
  }

  // ---------------------------------------------------------------------------
  // What an iteration creates, whatever its order

  lemma {:induction false} GatherAppend(step: string -> seq<Box>, a: seq<string>, b: seq<string>)
    ensures Gather(step, a + b) == Gather(step, a) + Gather(step, b)
    decreases |b|
  {
    if b == [] {
      assert a + b == a;
    } else {
      var n := |b| - 1;
      assert (a + b)[..|a + b| - 1] == a + b[..n];
      GatherAppend(step, a, b[..n]);
    }
  }

  /** An atom is created exactly when some step of the iteration creates it. */
  lemma {:induction false} GatherMember(step: string -> seq<Box>, order: seq<string>, b: Box)
    ensures b in Gather(step, order) <==> exists i :: 0 <= i < |order| && b in step(order[i])
  {
    if order != [] {
      var n := |order| - 1;
      GatherMember(step, order[..n], b);
      assert forall i :: 0 <= i < n ==> order[..n][i] == order[i];
    }
  }

  /** Iterations that visit the same names, in any order, create the same atoms. */
  lemma {:induction false} GatherPermutation(step: string -> seq<Box>, a: seq<string>, b: seq<string>)
    requires multiset(a) == multiset(b)
    ensures multiset(Gather(step, a)) == multiset(Gather(step, b))
    decreases |a|
  {
    if a != [] {
      var n := |a| - 1;
      var x := a[n];
      assert a == a[..n] + [x];
      assert x in multiset(b);
      var j :| 0 <= j < |b| && b[j] == x;
      var pre, post := b[..j], b[j + 1..];
      RemovedAt(b, j);
      assert multiset(a[..n]) == multiset(a) - multiset{x};
      GatherPermutation(step, a[..n], pre + post);
      GatherRemoved(step, pre, x, post);
      GatherAppend(step, a[..n], [x]);
      GatherOne(step, x);
    }
  }

  /** `b` is its part before `j`, its element at `j` and its part after; without
      that element it holds it once less. */
  lemma RemovedAt(b: seq<string>, j: nat)
    requires j < |b|
    ensures b == b[..j] + [b[j]] + b[j + 1..]
    ensures multiset(b[..j] + b[j + 1..]) == multiset(b) - multiset{b[j]}
  {
    assert b == b[..j] + [b[j]] + b[j + 1..];
  }

  /** The atoms gathered over a run are those gathered without one of its names,
      plus those that name creates. */
  lemma GatherRemoved(step: string -> seq<Box>, pre: seq<string>, x: string, post: seq<string>)
    ensures multiset(Gather(step, pre + [x] + post)) == multiset(Gather(step, pre + post)) + multiset(step(x))
  {
    GatherSplit(step, pre, x, post);
    GatherAppend(step, pre, post);
    MultisetOfThree(Gather(step, pre), step(x), Gather(step, post));
  }

  /** The atoms gathered over a run split around one of its names. */
  lemma GatherSplit(step: string -> seq<Box>, pre: seq<string>, x: string, post: seq<string>)
    ensures Gather(step, pre + [x] + post) == Gather(step, pre) + step(x) + Gather(step, post)
  {
    GatherAppend(step, pre + [x], post);
    GatherAppend(step, pre, [x]);
    GatherOne(step, x);
  }

  lemma MultisetOfThree(g: seq<Box>, m: seq<Box>, h: seq<Box>)
    ensures multiset(g + m + h) == multiset(g + h) + multiset(m)
  {
  }

  /** A single name creates its own atoms. */
  lemma GatherOne(step: string -> seq<Box>, x: string)
    ensures Gather(step, [x]) == step(x)
  {
    assert [x][..0] == [];
  }

  lemma {:induction false} DistinctMultiset(s: seq<string>, x: string)
    requires Distinct(s)
    ensures multiset(s)[x] == if x in s then 1 else 0
  {
    if s != [] {
      var n := |s| - 1;
      assert s == s[..n] + [s[n]];
      DistinctMultiset(s[..n], x);
      assert s[n] !in s[..n];
    }
  }

  /** Two iteration orders of one map visit the same keys. */
  lemma OrdersArePermutations(a: seq<string>, b: seq<string>, keys: set<string>)
    requires Enumerates(a, keys) && Enumerates(b, keys)
    ensures multiset(a) == multiset(b)
  {
    forall x ensures multiset(a)[x] == multiset(b)[x] {
      DistinctMultiset(a, x);
      DistinctMultiset(b, x);
    }
  }

  /** The fixed atoms open the run of new atoms. */
  lemma FixedAtomsFirst(env: Env)
    ensures NewAtoms(env)[..|FixedAtoms(env.tags)|] == FixedAtoms(env.tags)
  {
    var fixed := FixedAtoms(env.tags);
    var text := Gather(TextStep(env.tags, env.atoms), env.atomOrder);
    assert (fixed + text)[..|fixed|] == fixed;
  }

  /** The atoms a rewrite creates do not depend on the map iteration order: the
      fixed atoms come first in their fixed order, and the text atoms and the
      custom atoms of any two orders are the same up to order. */
  lemma NewAtomsOrderIndependent(e1: Env, e2: Env)
    requires Ordered(e1) && Ordered(e2)
    requires e1.tags == e2.tags && e1.atoms == e2.atoms
    ensures NewAtoms(e1)[..|FixedAtoms(e1.tags)|] == NewAtoms(e2)[..|FixedAtoms(e2.tags)|] == FixedAtoms(e1.tags)
    ensures multiset(Gather(TextStep(e1.tags, e1.atoms), e1.atomOrder))
         == multiset(Gather(TextStep(e2.tags, e2.atoms), e2.atomOrder))
    ensures multiset(Gather(CustomStep(e1.tags.custom), e1.customOrder))
         == multiset(Gather(CustomStep(e2.tags.custom), e2.customOrder))
    ensures multiset(NewAtoms(e1)) == multiset(NewAtoms(e2))
  {
    FixedAtomsFirst(e1);
    FixedAtomsFirst(e2);
    var text := TextStep(e1.tags, e1.atoms);
    var custom := CustomStep(e1.tags.custom);
    OrdersArePermutations(e1.atomOrder, e2.atomOrder, e1.atoms.Keys);
    OrdersArePermutations(e1.customOrder, e2.customOrder, e1.tags.custom.Keys);
    GatherPermutation(text, e1.atomOrder, e2.atomOrder);
    GatherPermutation(custom, e1.customOrder, e2.customOrder);
    assert multiset(NewAtoms(e1)) == multiset(FixedAtoms(e1.tags)) + multiset(Gather(text, e1.atomOrder))
      + multiset(Gather(custom, e1.customOrder));
    assert multiset(NewAtoms(e2)) == multiset(FixedAtoms(e1.tags)) + multiset(Gather(text, e2.atomOrder))
      + multiset(Gather(custom, e2.customOrder));
  }

  lemma TextAtomForMember(tags: Tags, atoms: map<string, bool>, name: string, b: Box)
    ensures b in TextStep(tags, atoms)(name)
        <==> name in atoms && atoms[name] && name !in Special && TextValue(tags, name) != ""
               && b == MetaBox(AtomCode(name), Text(TextValue(tags, name)))
  {
  }

  /** Every text atom created belongs to a name of the classification that is not
      written before the loop, is marked "must create" and has a non-empty value;
      its type is the name's code and its data the value as UTF-8 text. */
  lemma TextAtomsSound(env: Env, b: Box)
    requires b in Gather(TextStep(env.tags, env.atoms), env.atomOrder)
    ensures exists name :: name in env.atoms && env.atoms[name] && name !in Special
              && TextValue(env.tags, name) != ""
              && b == MetaBox(AtomCode(name), Text(TextValue(env.tags, name)))
  {
    var step := TextStep(env.tags, env.atoms);
    var order := env.atomOrder;
    GatherMember(step, order, b);
    var i :| 0 <= i < |order| && b in step(order[i]);
    TextAtomForMember(env.tags, env.atoms, order[i], b);
  }

  /** ... and every such name gets its atom, whatever the iteration order. */
  lemma TextAtomsComplete(env: Env, name: string)
    requires Enumerates(env.atomOrder, env.atoms.Keys)
    requires name in env.atoms && env.atoms[name] && name !in Special && TextValue(env.tags, name) != ""
    ensures MetaBox(AtomCode(name), Text(TextValue(env.tags, name))) in Gather(TextStep(env.tags, env.atoms), env.atomOrder)
  {
    var step := TextStep(env.tags, env.atoms);
    var order := env.atomOrder;
    var b := MetaBox(AtomCode(name), Text(TextValue(env.tags, name)));
    assert name in order;
    var i :| 0 <= i < |order| && order[i] == name;
    TextAtomForMember(env.tags, env.atoms, name, b);
    GatherMember(step, order, b);
  }

  lemma CustomAtomForMember(custom: map<string, string>, key: string, b: Box)
    ensures b in CustomStep(custom)(key)
        <==> key in custom && custom[key] != "" && b == CustomBox(key, Text(Text.ToUpper(custom[key])))
  {
  }

  /** Every custom atom created belongs to an entry with a non-empty value, and
      holds that value upper-cased. */
  lemma CustomAtomsSound(env: Env, b: Box)
    requires b in Gather(CustomStep(env.tags.custom), env.customOrder)
    ensures exists key :: key in env.tags.custom && env.tags.custom[key] != ""
              && b == CustomBox(key, Text(Text.ToUpper(env.tags.custom[key])))
  {
    var step := CustomStep(env.tags.custom);
    var order := env.customOrder;
    GatherMember(step, order, b);
    var i :| 0 <= i < |order| && b in step(order[i]);
    CustomAtomForMember(env.tags.custom, order[i], b);
  }

  /** ... and every entry with a non-empty value gets its atom, whatever the
      iteration order. */
  lemma CustomAtomsComplete(env: Env, key: string)
    requires Enumerates(env.customOrder, env.tags.custom.Keys)
    requires key in env.tags.custom && env.tags.custom[key] != ""
    ensures CustomBox(key, Text(Text.ToUpper(env.tags.custom[key]))) in Gather(CustomStep(env.tags.custom), env.customOrder)
  {
    var step := CustomStep(env.tags.custom);
    var order := env.customOrder;
    var b := CustomBox(key, Text(Text.ToUpper(env.tags.custom[key])));
    assert key in order;
    var i :| 0 <= i < |order| && order[i] == key;
    CustomAtomForMember(env.tags.custom, key, b);
    GatherMember(step, order, b);
  }

  /** No text atom has the `trkn`, `rtng` or `disk` code: the names of those codes
      are passed over by the text loop, and every other name has another code. */
  lemma TextAtomCodes(name: string)
    requires name !in Special
    ensures AtomCode(name) != TrackCode && AtomCode(name) != RatingCode && AtomCode(name) != DiskCode
  {
    FixedCodes();
    if AtomCode(name) == TrackCode {
      NameOfCode(name, 11);
    }
    if AtomCode(name) == RatingCode {
      NameOfCode(name, 14);
    }
    if AtomCode(name) == DiskCode {
      NameOfCode(name, 7);
    }
  }

  /** A `trkn` atom is created exactly when the track number is positive, and its
      value is the 8-byte track payload. */
  lemma TrackAtomIffNumber(env: Env)
    ensures (exists b :: b in NewAtoms(env) && b.typ == TrackCode) <==> env.tags.trackNumber > 0
    ensures forall b :: b in NewAtoms(env) && b.typ == TrackCode
              ==> b == MetaBox(TrackCode, Binary(NumberPayload(env.tags.trackNumber, env.tags.trackTotal)))
  {
    var t := env.tags;
    forall b | b in NewAtoms(env) && b.typ == TrackCode
      ensures t.trackNumber > 0
      ensures b == MetaBox(TrackCode, Binary(NumberPayload(t.trackNumber, t.trackTotal)))
    {
      OnlyFixedTrack(env, b);
    }
    if t.trackNumber > 0 {
      assert NewAtoms(env)[|CoverPart(t)|] == MetaBox(TrackCode, Binary(NumberPayload(t.trackNumber, t.trackTotal)));
    }
  }

  /** A `trkn` atom among the new ones is the one of the fixed atoms. */
  lemma OnlyFixedTrack(env: Env, b: Box)
    requires b in NewAtoms(env) && b.typ == TrackCode
    ensures b in TrackPart(env.tags)
  {
    var t := env.tags;
    assert Freeform != TrackCode && CoverCode != TrackCode && RatingCode != TrackCode && DiskCode != TrackCode;
    if b in Gather(TextStep(t, env.atoms), env.atomOrder) {
      TextAtomsSound(env, b);
      var name :| name in env.atoms && env.atoms[name] && name !in Special
        && TextValue(t, name) != "" && b == MetaBox(AtomCode(name), Text(TextValue(t, name)));
      TextAtomCodes(name);
    } else if b in Gather(CustomStep(t.custom), env.customOrder) {
      CustomAtomsSound(env, b);
    } else {
      assert b in FixedAtoms(t);
    }
  }

  // ---------------------------------------------------------------------------
  // Writing them

  /** Appending a run of boxes to what is written appends its bytes. */
  lemma WriteStep(pre: seq<Byte>, done: seq<Box>, part: seq<Box>)
    ensures pre + EncodeAll(done + part) == pre + EncodeAll(done) + EncodeAll(part)
    ensures AllFit(done + part) <==> AllFit(done) && AllFit(part)
  {
    EncodeAllAppend(done, part);
    AllFitAppend(done, part);
  }

  lemma One(b: Box)
    ensures EncodeAll([b]) == Encode(b)
    ensures AllFit([b]) <==> Fits(b)
  {
    assert EncodeAll([b]) == Encode(b) + EncodeAll([]);
  }

  /** One step of an iteration appends that step's atoms. */
  lemma GatherStep(pre: seq<Byte>, step: string -> seq<Box>, order: seq<string>, i: nat)
    requires i < |order|
    ensures pre + EncodeAll(Gather(step, order[..i + 1]))
         == pre + EncodeAll(Gather(step, order[..i])) + EncodeAll(step(order[i]))
    ensures AllFit(Gather(step, order[..i + 1])) <==> AllFit(Gather(step, order[..i])) && AllFit(step(order[i]))
  {
    assert order[..i + 1][..i] == order[..i];
    WriteStep(pre, Gather(step, order[..i]), step(order[i]));
  }

  /** An atom that one step creates but that does not fit spoils the whole
      iteration. */
  lemma StepTooBig(step: string -> seq<Box>, order: seq<string>, i: nat)
    requires i < |order| && !AllFit(step(order[i]))
    ensures !AllFit(Gather(step, order))
  {
    var atoms := step(order[i]);
    var k :| 0 <= k < |atoms| && !Fits(atoms[k]);
    GatherMember(step, order, atoms[k]);
    var all := Gather(step, order);
    var j :| 0 <= j < |all| && all[j] == atoms[k];
  }

  /** The text atom loop of `createAndWrite` and `createIlstAndWrite`. */
  method WriteTextAtoms(w: Writer, tags: Tags, atoms: map<string, bool>, order: seq<string>) returns (ok: bool)
    requires w.Valid() && !w.failed
    modifies w
    ensures w.Valid() && ok == !w.failed
    ensures ok <==> AllFit(Gather(TextStep(tags, atoms), order))
    ensures ok ==> w.out == old(w.out) + EncodeAll(Gather(TextStep(tags, atoms), order)) && w.open == old(w.open)
  {
    ghost var step := TextStep(tags, atoms);
    ok := true;
    var i := 0;
    while i < |order|
      invariant 0 <= i <= |order|
      invariant w.Valid() && !w.failed && w.open == old(w.open)
      invariant AllFit(Gather(step, order[..i]))
      invariant w.out == old(w.out) + EncodeAll(Gather(step, order[..i]))
    {
      var name := order[i];
      GatherStep(old(w.out), step, order, i);
      i := i + 1;
      if name in Special {
        continue;
      }
      var val := TextValue(tags, name);
      var needCreate := NeedCreate(atoms, name);
      if !needCreate || val == "" {
        continue;
      }
      ok := WriteMeta(w, AtomCode(name), Text(val));
      One(MetaBox(AtomCode(name), Text(val)));
      if !ok {
        StepTooBig(step, order, i - 1);
        return;
      }
    }
    assert order[..i] == order;
  }

  /** The custom atom loop of `createAndWrite` and `createIlstAndWrite`. */
  method WriteCustomAtoms(w: Writer, custom: map<string, string>, order: seq<string>) returns (ok: bool)
    requires w.Valid() && !w.failed
    modifies w
    ensures w.Valid() && ok == !w.failed
    ensures ok <==> AllFit(Gather(CustomStep(custom), order))
    ensures ok ==> w.out == old(w.out) + EncodeAll(Gather(CustomStep(custom), order)) && w.open == old(w.open)
  {
    ghost var step := CustomStep(custom);
    ok := true;
    var i := 0;
    while i < |order|
      invariant 0 <= i <= |order|
      invariant w.Valid() && !w.failed && w.open == old(w.open)
      invariant AllFit(Gather(step, order[..i]))
      invariant w.out == old(w.out) + EncodeAll(Gather(step, order[..i]))
    {
      var key := order[i];
      GatherStep(old(w.out), step, order, i);
      i := i + 1;
      if key !in custom {
        continue;
      }
      var value := custom[key];
      if value == "" {
        continue;
      }
      ok := WriteCustomMeta(w, key, Text(Text.ToUpper(value)));
      One(CustomBox(key, Text(Text.ToUpper(value))));
      if !ok {
        StepTooBig(step, order, i - 1);
        return;
      }
    }
    assert order[..i] == order;
  }

  /** The covers, track, rating and disk atoms. */
  method WriteFixedAtoms(w: Writer, t: Tags) returns (ok: bool)
    requires w.Valid() && !w.failed
    modifies w
    ensures w.Valid() && ok == !w.failed
    ensures ok <==> AllFit(FixedAtoms(t))
    ensures ok ==> w.out == old(w.out) + EncodeAll(FixedAtoms(t)) && w.open == old(w.open)
  {
    ok := true;
    ghost var pre := w.out;
    WriteStep(pre, [], CoverPart(t));
    assert [] + CoverPart(t) == CoverPart(t);
    if |t.coversData| > 0 {
      ok := WriteCovers(w, t.coversData);
      One(CoversBox(t.coversData));
      if !ok {
        AllFitAppend(CoverPart(t) + TrackPart(t) + RatingPart(t), DiskPart(t));
        AllFitAppend(CoverPart(t) + TrackPart(t), RatingPart(t));
        AllFitAppend(CoverPart(t), TrackPart(t));
        return;
      }
    }
    ghost var done := CoverPart(t);
    ok := WriteNumberAtom(w, TrackPart(t), TrackCode, t.trackNumber, NumberPayload(t.trackNumber, t.trackTotal), pre, done);
    if !ok {
      AllFitAppend(CoverPart(t) + TrackPart(t) + RatingPart(t), DiskPart(t));
      AllFitAppend(CoverPart(t) + TrackPart(t), RatingPart(t));
      return;
    }
    done := done + TrackPart(t);
    ok := WriteNumberAtom(w, RatingPart(t), RatingCode, t.contentRating, RatingPayload(t.contentRating), pre, done);
    if !ok {
      AllFitAppend(CoverPart(t) + TrackPart(t) + RatingPart(t), DiskPart(t));
      return;
    }
    done := done + RatingPart(t);
    ok := WriteNumberAtom(w, DiskPart(t), DiskCode, t.diskNumber, NumberPayload(t.diskNumber, t.diskTotal), pre, done);
  }

  /** One of the number atoms: written, as a `tag` box holding `payload` as binary
      data, only when `number` is positive. */
  method WriteNumberAtom(w: Writer, ghost part: seq<Box>, tag: BoxType, number: int, payload: seq<Byte>,
                         ghost pre: seq<Byte>, ghost done: seq<Box>)
    returns (ok: bool)
    requires part == if number > 0 then [MetaBox(tag, Binary(payload))] else []
    requires w.Valid() && !w.failed && AllFit(done) && w.out == pre + EncodeAll(done)
    modifies w
    ensures w.Valid() && ok == !w.failed
    ensures ok <==> AllFit(done + part)
    ensures ok ==> w.out == pre + EncodeAll(done + part) && w.open == old(w.open)
  {
    WriteStep(pre, done, part);
    ok := true;
    if number > 0 {
      ok := WriteMeta(w, tag, Binary(payload));
      One(MetaBox(tag, Binary(payload)));
    } else {
      assert EncodeAll(part) == [];
    }
  }

  /** Every atom the rewrite creates, in order. */
  method WriteNewAtoms(w: Writer, env: Env) returns (ok: bool)
    requires w.Valid() && !w.failed
    modifies w
    ensures w.Valid() && ok == !w.failed
    ensures ok <==> AllFit(NewAtoms(env))
    ensures ok ==> w.out == old(w.out) + EncodeAll(NewAtoms(env)) && w.open == old(w.open)
  {
    var fixed := FixedAtoms(env.tags);
    var text := Gather(TextStep(env.tags, env.atoms), env.atomOrder);
    var custom := Gather(CustomStep(env.tags.custom), env.customOrder);
    WriteStep(old(w.out), fixed, text);
    WriteStep(old(w.out), fixed + text, custom);
    ok := WriteFixedAtoms(w, env.tags);
    if !ok {
      return;
    }
    ok := WriteTextAtoms(w, env.tags, env.atoms, env.atomOrder);
    if !ok {
      return;
    }
    ok := WriteCustomAtoms(w, env.tags.custom, env.customOrder);
  }
}
