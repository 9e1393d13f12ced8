/** The atom catalog: the fixed table from metadata field names to the four-byte
    codes of their iTunes metadata atoms, and the lookups the rewrite engine makes
    in it (`atomsMap`, `getTag`, `containsAtom`, `containsTag`, `getAtomsList`). */
module Catalog {
  import opened Basics
  import opened Boxes
  import Text

  /** The field names of the table, in the order the table declares them. */
  const Names: seq<string> := [
    "Album", "AlbumArtist", "Artist", "Comment", "Composer", "Copyright", "Cover",
    "Disk", "Genre", "Label", "Title", "Track", "Year", "UnsyncedLyrics",
    "ContentRating", "compilation", "albumSort", "artistSort"]

  /** The atom code of each name, position by position. */
  const Codes: seq<BoxType> := [
    FourCC("\U{A9}alb"), FourCC("aART"), FourCC("\U{A9}ART"), FourCC("\U{A9}cmt"),
    FourCC("\U{A9}wrt"), FourCC("cprt"), FourCC("covr"), FourCC("disk"),
    FourCC("\U{A9}gen"), FourCC("\U{A9}lab"), FourCC("\U{A9}nam"), FourCC("trkn"),
    FourCC("\U{A9}day"), FourCC("\U{A9}lyr"), FourCC("rtng"), FourCC("cpil"),
    FourCC("soal"), FourCC("soaa")]

  const CoverCode: BoxType := FourCC("covr")
  const TrackCode: BoxType := FourCC("trkn")
  const DiskCode: BoxType := FourCC("disk")
  const RatingCode: BoxType := FourCC("rtng")

  /** The position of the first `x` in `s`, or `|s|` when there is none: the linear
      scan every lookup of the table performs. */
  function IndexOf<T(==)>(s: seq<T>, x: T): (r: nat)
    ensures r <= |s|
    ensures r < |s| ==> s[r] == x
    ensures forall j :: 0 <= j < r ==> s[j] != x
  {
    if s == [] then 0
    else if s[0] == x then 0
    else 1 + IndexOf(s[1..], x)
  }

  /** The table has 18 entries, and both its names and its codes are pairwise
      distinct, which is what makes it a bijection. */
  lemma TableIsBijective()
    ensures |Names| == |Codes| == 18
    ensures forall i, j :: 0 <= i < j < |Names| ==> Names[i] != Names[j]
    ensures forall i, j :: 0 <= i < j < |Codes| ==> Codes[i] != Codes[j]
    ensures ZeroType !in Codes
  {
    forall i, j | 0 <= i < j < |Codes| ensures Codes[i] != Codes[j] {
      assert Codes[i][0] != Codes[j][0] || Codes[i][1] != Codes[j][1]
          || Codes[i][2] != Codes[j][2] || Codes[i][3] != Codes[j][3];
    }
    forall i, j | 0 <= i < j < |Names| ensures Names[i] != Names[j] {
      assert |Names[i]| != |Names[j]| || Names[i][0] != Names[j][0]
          || Names[i][1] != Names[j][1] || Names[i][2] != Names[j][2];
    }
    forall i | 0 <= i < |Codes| ensures Codes[i] != ZeroType {
      assert Codes[i][3] != 0;
    }
  }

  /** The value paired with the first `x` of `keys`, or `absent` when there is none.
      With distinct keys, the value of every entry that holds `x`. */
  function Lookup<K(==), V>(keys: seq<K>, values: seq<V>, x: K, absent: V): (r: V)
    requires |keys| == |values|
    requires forall i, j :: 0 <= i < j < |keys| ==> keys[i] != keys[j]
    ensures x !in keys ==> r == absent
    ensures forall i :: 0 <= i < |keys| && keys[i] == x ==> r == values[i]
  {
    var i := IndexOf(keys, x);
    if i < |values| then values[i] else absent
  }

  /** `atomsMap[name]`: the code of a catalog name, and Go's zero box type for any
      other name. */
  function AtomCode(name: string): (t: BoxType)
    ensures name !in Names ==> t == ZeroType
    ensures forall i :: 0 <= i < |Names| && Names[i] == name ==> t == Codes[i]
  {
    TableIsBijective();
    Lookup(Names, Codes, name, ZeroType)
  }

  /** `getTag`: the name whose code is `t`, or the empty string when no entry has
      that code. Go scans the table in map order; as the codes are distinct, every
      order gives the same answer. */
  function GetTag(t: BoxType): (name: string)
    ensures name == "" <==> t !in Codes
    ensures forall i :: 0 <= i < |Codes| && Codes[i] == t ==> name == Names[i]
  {
    TableIsBijective();
    NamesNonEmpty();
    Lookup(Codes, Names, t, "")
  }

  lemma NamesNonEmpty()
    ensures "" !in Names
  {
  }

  /** `getTag` inverts `atomsMap` on every catalog name. */
  lemma GetTagInvertsAtomCode(name: string)
    requires name in Names
    ensures GetTag(AtomCode(name)) == name
  {
    TableIsBijective();
    var i :| 0 <= i < |Names| && Names[i] == name;
    assert AtomCode(name) == Codes[i];
  }

  /** ... and `atomsMap` inverts `getTag` on every catalog code. */
  lemma AtomCodeInvertsGetTag(t: BoxType)
    requires t in Codes
    ensures AtomCode(GetTag(t)) == t
  {
    TableIsBijective();
    var i :| 0 <= i < |Codes| && Codes[i] == t;
    assert GetTag(t) == Names[i];
  }

  /** Where the codes the engine writes itself sit in the table. */
  lemma FixedCodes()
    ensures Codes[6] == CoverCode && Names[6] == "Cover"
    ensures Codes[7] == DiskCode && Names[7] == "Disk"
    ensures Codes[11] == TrackCode && Names[11] == "Track"
    ensures Codes[14] == RatingCode && Names[14] == "ContentRating"
  {
  }

  /** The only name whose code is the `i`-th code of the table is the `i`-th
      name. */
  lemma NameOfCode(name: string, i: nat)
    requires i < |Codes| && AtomCode(name) == Codes[i]
    ensures name == Names[i]
  {
    TableIsBijective();
    if name in Names {
      var j :| 0 <= j < |Names| && Names[j] == name;
      assert Codes[j] == Codes[i];
    }
  }

  /** `getAtomsList`: every code of the table. Go lists them in map order, which
      only matters up to membership; this is the table order. */
  function AtomsList(): (r: seq<BoxType>)
    ensures |r| == 18
    ensures forall t :: t in r <==> exists name :: name in Names && AtomCode(name) == t
  {
    TableIsBijective();
    forall t | t in Codes ensures exists name :: name in Names && AtomCode(name) == t {
      var i :| 0 <= i < |Codes| && Codes[i] == t;
      assert AtomCode(Names[i]) == t;
    }
    Codes
  }

  /** `containsAtom`: `t` itself when the list holds it, the zero box type
      otherwise. */
  function ContainsAtom(t: BoxType, boxes: seq<BoxType>): (r: BoxType)
    ensures t in boxes ==> r == t
    ensures t !in boxes ==> r == ZeroType
  {
    if boxes == [] then ZeroType
    else if t == boxes[0] then t
    else ContainsAtom(t, boxes[1..])
  }

  /** The dispatch's `case containsAtom(type, atomsList)` matches a catalog code, and
      also the zero type, for which the scan's "not found" answer equals the type. */
  lemma CatalogCaseMatches(t: BoxType)
    ensures t == ContainsAtom(t, AtomsList()) <==> t in Codes || t == ZeroType
  {
  }

  /** The boxes the walk enters, and the `data` atom, are not catalog atoms. */
  lemma ContainersOutsideCatalog()
    ensures Moov !in Codes && Udta !in Codes && Meta !in Codes && Ilst !in Codes && DataCode !in Codes
  {
    forall i | 0 <= i < |Codes|
      ensures Codes[i] != Moov && Codes[i] != Udta && Codes[i] != Meta && Codes[i] != Ilst && Codes[i] != DataCode
    {
    }
  }

  /** `containsTag`: whether any entry of the delete list names `tag`, ignoring
      case. */
  function ContainsTag(delete: seq<string>, tag: string): (r: bool)
    ensures r <==> exists i :: 0 <= i < |delete| && Text.EqualFold(delete[i], tag)
  {
    if delete == [] then false
    else if Text.EqualFold(delete[0], tag) then true
    else
      var r := ContainsTag(delete[1..], tag);
      assert forall i :: 1 <= i < |delete| ==> delete[i] == delete[1..][i - 1];
      r
  }
}
