/** The edit request (`Tags`) and the byte layouts the engine derives from it: the
    8-byte track/disk payload, the 1-byte rating payload, and the string a field
    yields when the engine reads it by name. */
module TagSet {
  import opened Basics

  /** One edit request. Text fields left empty and numbers not above zero ask for no
      change; `delete` names the fields whose atoms are to be removed; `yearStr` is
      the text written for the year. Go's `int` is kept unbounded here; every
      narrowing conversion the engine makes is written out below. */
  datatype Tags = Tags(
    album: string,
    albumArtist: string,
    artist: string,
    comment: string,
    composer: string,
    copyright: string,
    coversData: seq<seq<Byte>>,
    custom: map<string, string>,
    delete: seq<string>,
    diskNumber: int,
    diskTotal: int,
    genre: string,
    contentRating: int,
    contentRatingStr: string,
    recordLabel: string,
    title: string,
    trackNumber: int,
    trackTotal: int,
    unsyncedLyrics: string,
    year: int,
    yearStr: string)

  /** The Go names of the fields, in declaration order: what the engine's
      reflection over the record enumerates. */
  const FieldNames: seq<string> := [
    "Album", "AlbumArtist", "Artist", "Comment", "Composer", "Copyright",
    "CoversData", "Custom", "Delete", "DiskNumber", "DiskTotal", "Genre",
    "ContentRating", "ContentRatingStr", "Label", "Title", "TrackNumber",
    "TrackTotal", "UnsyncedLyrics", "Year", "yearStr"]

  /** `reflect.ValueOf(tags).FieldByName(name).String()`: a string field yields its
      value; any other field yields Go's "<T Value>" placeholder for its type; a
      name that is no field yields "<invalid Value>". */
  function FieldString(t: Tags, name: string): (s: string)
    ensures name !in FieldNames ==> s == "<invalid Value>"
    ensures name in {"DiskNumber", "DiskTotal", "ContentRating", "TrackNumber", "TrackTotal", "Year"}
            ==> s == "<int Value>"
  {
    match name
    case "Album" => t.album
    case "AlbumArtist" => t.albumArtist
    case "Artist" => t.artist
    case "Comment" => t.comment
    case "Composer" => t.composer
    case "Copyright" => t.copyright
    case "CoversData" => "<[][]uint8 Value>"
    case "Custom" => "<map[string]string Value>"
    case "Delete" => "<[]string Value>"
    case "Genre" => t.genre
    case "ContentRatingStr" => t.contentRatingStr
    case "Label" => t.recordLabel
    case "Title" => t.title
    case "UnsyncedLyrics" => t.unsyncedLyrics
    case "yearStr" => t.yearStr
    case "DiskNumber" => "<int Value>"
    case "DiskTotal" => "<int Value>"
    case "ContentRating" => "<int Value>"
    case "TrackNumber" => "<int Value>"
    case "TrackTotal" => "<int Value>"
    case "Year" => "<int Value>"
    case _ => "<invalid Value>"
  }

  /** The text the engine writes for a catalog name: the year comes from `yearStr`,
      every other name is read by reflection. */
  function TextValue(t: Tags, name: string): (s: string)
    ensures name == "Year" ==> s == t.yearStr
    ensures name == "Title" ==> s == t.title
    ensures name == "Album" ==> s == t.album
  {
    if name == "Year" then t.yearStr else FieldString(t, name)
  }

  /** Go's `uint32(x)`, `uint16(x)` and `byte(x)`: the low bits of the two's
      complement value, which for every int is the Euclidean remainder. */
  function Low32(x: int): (r: nat)
    ensures r <= MaxUint32
    ensures 0 <= x <= MaxUint32 ==> r == x
  {
    x % 0x1_0000_0000
  }

  function Low16(x: int): (r: nat)
    ensures r <= 0xFFFF
    ensures 0 <= x <= 0xFFFF ==> r == x
  {
    x % 0x1_0000
  }

  function Low8(x: int): (r: Byte)
    ensures 0 <= x <= 0xFF ==> r == x
  {
    x % 0x100
  }

  /** The `trkn`/`disk` value: the number as a big-endian 32-bit integer, the total
      as a big-endian 16-bit integer when it is positive and zero otherwise, then
      two zero bytes. */
  function NumberPayload(number: int, total: int): (r: seq<Byte>)
    ensures |r| == 8
    ensures FromBe(r[..4]) == Low32(number)
    ensures FromBe(r[4..6]) == (if total > 0 then Low16(total) else 0)
    ensures r[6] == 0 && r[7] == 0
  {
    var head := Be32(Low32(number));
    var mid := if total > 0 then Be16(Low16(total)) else [0, 0];
    assert FromBe([0, 0][..1]) == 0;
    var r := head + mid + [0, 0];
    assert r[..4] == head && r[4..6] == mid;
    r
  }

  /** The `rtng` value: one byte, the rating's low eight bits. */
  function RatingPayload(rating: int): (r: seq<Byte>)
    ensures |r| == 1 && r[0] == Low8(rating)
  {
    [Low8(rating)]
  }

  /** Track 7 of 12 packs to 00 00 00 07 00 0C 00 00. */
  lemma NumberPayloadExample()
    ensures NumberPayload(7, 12) == [0, 0, 0, 7, 0, 12, 0, 0]
  {
  }
}
