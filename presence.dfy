/** Presence classification (`populateAtoms`): which catalog atoms the file already
    holds under `moov/udta/meta/ilst`, and so which the rewrite must create. */
module Presence {
  import opened Basics
  import opened Boxes
  import opened Catalog
  import TagSet

  /** The boxes of `bs` of type `t`, in order. */
  function Select(bs: seq<Box>, t: BoxType): (r: seq<Box>)
    ensures forall x :: x in r <==> x in bs && x.typ == t
  {
    if bs == [] then []
    else (if bs[0].typ == t then [bs[0]] else []) + Select(bs[1..], t)
  }

  /** The children of every box of `bs`, one box after the other. */
  function Children(bs: seq<Box>): (r: seq<Box>)
    ensures forall x :: x in r <==> exists b :: b in bs && x in b.children
  {
    if bs == [] then []
    else
      var rest := Children(bs[1..]);
      assert forall b :: b in bs <==> b == bs[0] || b in bs[1..];
      bs[0].children + rest
  }

  /** The children of the boxes reached by following the type path `p` from `bs`. */
  function Level(bs: seq<Box>, p: seq<BoxType>): seq<Box>
    decreases |p|
  {
    if p == [] then bs else Level(Children(Select(bs, p[0])), p[1..])
  }

  /** `mp4.ExtractBox`: the boxes at the end of the type path `p`, the last step
      included. */
  function Extract(bs: seq<Box>, p: seq<BoxType>): seq<Box>
    requires |p| > 0
  {
    Select(Level(bs, p[..|p| - 1]), p[|p| - 1])
  }

  lemma {:induction false} LevelSnoc(bs: seq<Box>, p: seq<BoxType>, t: BoxType)
    ensures Level(bs, p + [t]) == Children(Select(Level(bs, p), t))
    decreases |p|
  {
    if p == [] {
      assert Level(bs, [t]) == Level(Children(Select(bs, t)), []);
    } else {
      assert (p + [t])[1..] == p[1..] + [t];
      LevelSnoc(Children(Select(bs, p[0])), p[1..], t);
    }
  }

  const IlstPath: seq<BoxType> := [Moov, Udta, Meta, Ilst]

  /** What the classification learns from the file: none when no
      `moov/udta/meta/ilst` box exists, otherwise the types of the boxes directly
      under the `ilst` boxes. */
  function IlstCodes(file: seq<Box>): (r: Option<set<BoxType>>)
    ensures r.None? <==> Extract(file, IlstPath) == []
  {
    var ilsts := Extract(file, IlstPath);
    if ilsts == [] then None
    else Some(set x | x in Children(ilsts) :: x.typ)
  }

  /** The abstraction is sound: a code is among the ones learnt exactly when
      extracting the path `moov/udta/meta/ilst/code` finds a box. */
  lemma IlstCodesMatchExtract(file: seq<Box>, t: BoxType)
    requires IlstCodes(file).Some?
    ensures t in IlstCodes(file).value <==> Extract(file, IlstPath + [t]) != []
  {
    var p := IlstPath + [t];
    var ilsts := Extract(file, IlstPath);
    assert p[..|p| - 1] == IlstPath && p[|p| - 1] == t;
    assert IlstPath[..3] + [Ilst] == IlstPath;
    LevelSnoc(file, IlstPath[..3], Ilst);
    assert Level(file, IlstPath) == Children(ilsts);
    var found := Select(Children(ilsts), t);
    assert Extract(file, p) == found;
    if t in IlstCodes(file).value {
      var x :| x in Children(ilsts) && x.typ == t;
      assert x in found;
    }
    if found != [] {
      assert found[0] in Children(ilsts);
    }
  }

  /** The fields the classification passes over. */
  const Unclassified: set<string> := {"Custom", "TrackTotal", "DiskTotal"}

  /** The catalog name a field is keyed by: the number fields are keyed by their
      atom's name. */
  function Key(field: string): (k: string)
    ensures field == "TrackNumber" ==> k == "Track"
    ensures field == "DiskNumber" ==> k == "Disk"
    ensures field !in {"TrackNumber", "DiskNumber"} ==> k == field
  {
    if field == "TrackNumber" then "Track"
    else if field == "DiskNumber" then "Disk"
    else field
  }

  /** The keys one field adds: on bootstrap its own name, and its catalog key when
      there is one. */
  function FieldKeys(field: string, bootstrap: bool): set<string>
  {
    if field in Unclassified then {}
    else (if bootstrap then {field} else {}) + (if Key(field) in Names then {Key(field)} else {})
  }

  /** The keys every step of a run over `fields` sets, step by step. */
  function Union(step: string -> set<string>, fields: seq<string>): set<string>
  {
    if fields == [] then {}
    else Union(step, fields[..|fields| - 1]) + step(fields[|fields| - 1])
  }

  /** The keys a run over `fields` sets. */
  function KeysOf(fields: seq<string>, bootstrap: bool): set<string>
  {
    Union(field => FieldKeys(field, bootstrap), fields)
  }

  /** The flag of one key: "must create" when no atom of its code is present, which
      on bootstrap holds for every key. */
  function NeedsCreating(ilst: Option<set<BoxType>>, key: string): bool
  {
    match ilst
    case None => true
    case Some(codes) => AtomCode(key) !in codes
  }

  lemma KeysOfStep(fields: seq<string>, i: nat, bootstrap: bool)
    requires i < |fields|
    ensures KeysOf(fields[..i + 1], bootstrap) == KeysOf(fields[..i], bootstrap) + FieldKeys(fields[i], bootstrap)
  {
    assert fields[..i + 1][..i] == fields[..i];
  }

  lemma {:induction false} UnionMember(step: string -> set<string>, fields: seq<string>, x: string)
    ensures x in Union(step, fields) <==> exists i :: 0 <= i < |fields| && x in step(fields[i])
  {
    if fields != [] {
      var n := |fields| - 1;
      UnionMember(step, fields[..n], x);
      assert forall i :: 0 <= i < n ==> fields[..n][i] == fields[i];
    }
  }

  /** The map `populateAtoms` returns. */
  function Classification(ilst: Option<set<BoxType>>): map<string, bool>
  {
    map k | k in KeysOf(TagSet.FieldNames, ilst.None?) :: NeedsCreating(ilst, k)
  }

  /** One pass of `populateAtoms`'s loop: the entries one field sets. */
  method ClassifyField(atoms: map<string, bool>, ilst: Option<set<BoxType>>, field: string)
    returns (atoms': map<string, bool>)
    ensures atoms'.Keys == atoms.Keys + FieldKeys(field, ilst.None?)
    ensures forall k :: k in atoms' ==> atoms'[k] == if k in FieldKeys(field, ilst.None?) then NeedsCreating(ilst, k) else atoms[k]
  {
    atoms' := atoms;
    if field !in Unclassified {
      if ilst.None? {
        atoms' := atoms'[field := true];
      }
      var key := Key(field);
      if key in Names {
        atoms' := atoms'[key := NeedsCreating(ilst, key)];
      }
    }
  }

  /** `populateAtoms`. `noIlst` is the "no ilst atom" error, which the caller turns
      into the bootstrap flag. */
  method PopulateAtoms(ilst: Option<set<BoxType>>) returns (atoms: map<string, bool>, noIlst: bool)
    ensures noIlst <==> ilst.None?
    ensures atoms == Classification(ilst)
  {
    var fields := TagSet.FieldNames;
    atoms := map[];
    var i := 0;
    while i < |fields|
      invariant 0 <= i <= |fields|
      invariant atoms.Keys == KeysOf(fields[..i], ilst.None?)
      invariant forall k :: k in atoms ==> atoms[k] == NeedsCreating(ilst, k)
    {
      KeysOfStep(fields, i, ilst.None?);
      atoms := ClassifyField(atoms, ilst, fields[i]);
      i := i + 1;
    }
    assert fields[..i] == fields;
    noIlst := ilst.None?;
  }

  /** A key is set by a run exactly when one of its fields sets it. */
  lemma KeysOfMember(fields: seq<string>, bootstrap: bool, x: string)
    ensures x in KeysOf(fields, bootstrap) <==> exists i :: 0 <= i < |fields| && x in FieldKeys(fields[i], bootstrap)
  {
    UnionMember(field => FieldKeys(field, bootstrap), fields, x);
  }

  /** Which keys a run over `fields` sets: with an `ilst`, the catalog names some
      classified field is keyed by; on bootstrap, also the names of all classified
      fields themselves. */
  lemma KeysRule(fields: seq<string>, x: string)
    ensures x in KeysOf(fields, false)
        <==> x in Names && exists i :: 0 <= i < |fields| && fields[i] !in Unclassified && Key(fields[i]) == x
    ensures x in KeysOf(fields, true)
        <==> x in KeysOf(fields, false) || exists i :: 0 <= i < |fields| && fields[i] !in Unclassified && fields[i] == x
  {
    KeysOfMember(fields, false, x);
    KeysOfMember(fields, true, x);
  }

  /** The fields passed over and the number fields' own names are never keys when
      the file has an `ilst`. */
  lemma PassedOverFields(codes: set<BoxType>, x: string)
    requires x in Unclassified + {"TrackNumber", "DiskNumber"}
    ensures x !in Classification(Some(codes))
  {
    NeverKey(TagSet.FieldNames, x);
  }

  lemma {:induction false} NeverKey(fields: seq<string>, x: string)
    requires x in Unclassified + {"TrackNumber", "DiskNumber"}
    ensures x !in KeysOf(fields, false)
  {
    if fields != [] {
      var n := |fields| - 1;
      NeverKey(fields[..n], x);
      assert fields == fields[..n] + [fields[n]];
      assert x !in FieldKeys(fields[n], false);
    }
  }

  /** "Cover" is never a key: its field is "CoversData". */
  lemma CoverNeverClassified(codes: set<BoxType>)
    ensures "Cover" !in Classification(Some(codes))
  {
    KeysRule(TagSet.FieldNames, "Cover");
    assert "Cover" !in TagSet.FieldNames;
  }

  /** The number fields are keyed by their atoms' names. */
  lemma NumberKeys(codes: set<BoxType>)
    ensures "Track" in Classification(Some(codes)) && "Disk" in Classification(Some(codes))
  {
    var fs := TagSet.FieldNames;
    FixedCodes();
    assert "Track" in FieldKeys(fs[16], false) by {
      assert fs[16] == "TrackNumber" && Key(fs[16]) == "Track";
    }
    assert "Disk" in FieldKeys(fs[9], false) by {
      assert fs[9] == "DiskNumber" && Key(fs[9]) == "Disk";
    }
    KeysOfMember(fs, false, "Track");
    KeysOfMember(fs, false, "Disk");
  }

  /** On bootstrap every key is "must create". */
  lemma BootstrapCreatesAll(k: string)
    requires k in Classification(None)
    ensures Classification(None)[k]
  {
  }

  /** With an `ilst`, a key is "must create" exactly when no atom of its code sits
      under the `ilst`. */
  lemma ClassificationMatchesFile(file: seq<Box>, k: string)
    requires IlstCodes(file).Some? && k in Classification(IlstCodes(file))
    ensures Classification(IlstCodes(file))[k] <==> Extract(file, IlstPath + [AtomCode(k)]) == []
  {
    IlstCodesMatchExtract(file, AtomCode(k));
  }
}
