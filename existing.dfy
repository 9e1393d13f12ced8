/** `writeExisting`: what the rewrite does with the `data` atom of a catalog atom
    the file already holds and the edit does not ask to create. It keeps the atom,
    drops it (its replacement was created at the head of `ilst`), or rewrites its
    value in place, keeping its locale. */
module Existing {
  import opened Basics
  import opened Boxes
  import opened BoxWriter
  import opened Emitters
  import opened TagSet
  import Creation

  /** The outcome for one existing `data` atom. `ParseError` is the payload read
      failing, which aborts the rewrite. */
  datatype Decision = CopyOriginal | Drop | Replace(atom: Box) | ParseError

  /** The existing atom's payload re-marshalled with a new type and value: the
      locale is kept, and a payload too short to read is an error. */
  function Rewritten(payload: seq<Byte>, kind: nat, value: seq<Byte>): (d: Decision)
    requires kind <= MaxUint32
    ensures d.ParseError? <==> ParseData(payload).None?
    ensures d.ParseError? || d.Replace?
    ensures d.Replace? ==>
              (d.atom.typ == DataCode && d.atom.children == []
               && ParseData(d.atom.payload) == Some(DataAtom(kind, ParseData(payload).value.lang, value)))
  {
    match ParseData(payload)
    case None => ParseError
    case Some(old_) => Replace(Box(DataCode, DataBody(kind, old_.lang, value), []))
  }

  /** The decision `writeExisting` makes for the atom named `key` whose `data`
      payload is `payload`. */
  function ExistingDecision(tags: Tags, key: string, payload: seq<Byte>): (d: Decision)
  {
    if key == "Cover" && |tags.coversData| == 0 then CopyOriginal
    else if key == "Cover" then Rewritten(payload, KindBinary, tags.coversData[0])
    else if key == "Disk" then (if tags.diskNumber < 1 then CopyOriginal else Drop)
    else if key == "Track" then (if tags.trackNumber < 1 then CopyOriginal else Drop)
    else if key == "ContentRating" then (if !(0 <= tags.contentRating <= 2) then CopyOriginal else Drop)
    else if TextValue(tags, key) == "" then CopyOriginal
    else Rewritten(payload, KindUtf8, Utf8(TextValue(tags, key)))
  }

  /** The existing atom is kept exactly when the edit has nothing for it: no cover
      images, a track or disk number below one, a rating outside 0..2, or an empty
      text value. */
  lemma KeptWhenNothingToWrite(tags: Tags, key: string, payload: seq<Byte>)
    ensures ExistingDecision(tags, key, payload).CopyOriginal? <==>
              ((key == "Cover" && |tags.coversData| == 0)
               || (key == "Disk" && tags.diskNumber < 1)
               || (key == "Track" && tags.trackNumber < 1)
               || (key == "ContentRating" && !(0 <= tags.contentRating <= 2))
               || (key !in Creation.Special && TextValue(tags, key) == ""))
  {
    if key in Creation.Special {
      assert key == "Cover" || key == "Disk" || key == "Track" || key == "ContentRating";
    } else {
      assert key != "Cover" && key != "Disk" && key != "Track" && key != "ContentRating";
    }
  }

  /** The number atoms and the rating are never rewritten in place: when the edit
      sets them they are dropped. */
  lemma NumbersDropped(tags: Tags, key: string, payload: seq<Byte>)
    requires key in {"Disk", "Track", "ContentRating"}
    ensures ExistingDecision(tags, key, payload).Drop? <==>
              ((key == "Disk" && tags.diskNumber >= 1)
               || (key == "Track" && tags.trackNumber >= 1)
               || (key == "ContentRating" && 0 <= tags.contentRating <= 2))
    ensures !ExistingDecision(tags, key, payload).Replace? && !ExistingDecision(tags, key, payload).ParseError?
  {
  }

  /** A text atom with a non-empty new value is rewritten: its `data` atom then
      reads back as UTF-8 text holding the new value, in its old locale. Only a
      payload too short to read makes it an error. */
  lemma TextRewritten(tags: Tags, key: string, payload: seq<Byte>)
    requires key !in Creation.Special && TextValue(tags, key) != ""
    ensures var d := ExistingDecision(tags, key, payload);
            (d.ParseError? <==> |payload| < 8)
            && (d.Replace? ==>
                  ParseData(d.atom.payload) == Some(DataAtom(KindUtf8, payload[4..8], Utf8(TextValue(tags, key)))))
  {
  }

  /** The first cover image replaces an existing cover in place, as binary data. */
  lemma CoverRewritten(tags: Tags, payload: seq<Byte>)
    requires |tags.coversData| > 0 && |payload| >= 8
    ensures var d := ExistingDecision(tags, "Cover", payload);
            d.Replace? && ParseData(d.atom.payload) == Some(DataAtom(KindBinary, payload[4..8], tags.coversData[0]))
  {
  }

  /** The catalog names that name no field of the edit (`compilation`, `albumSort`,
      `artistSort`) read by reflection as Go's "<invalid Value>", which is not
      empty: an existing atom of those codes is rewritten to that text. */
  lemma UnnamedFieldsOverwritten(tags: Tags, key: string, payload: seq<Byte>)
    requires key in {"compilation", "albumSort", "artistSort"} && |payload| >= 8
    ensures var d := ExistingDecision(tags, key, payload);
            d.Replace? && ParseData(d.atom.payload).value.value == Utf8("<invalid Value>")
  {
    assert key !in FieldNames;
  }

  /** The rewrite branch of `writeExisting`: open a box of the existing atom's type,
      read its payload, marshal the new type and value with the old locale, close
      the box. */
  method RewriteData(w: Writer, payload: seq<Byte>, kind: nat, value: seq<Byte>) returns (ok: bool)
    requires kind <= MaxUint32
    requires w.Valid() && !w.failed
    modifies w
    ensures w.Valid()
    ensures var d := Rewritten(payload, kind, value);
            ok <==> d.Replace? && Fits(d.atom)
    ensures ok ==> var d := Rewritten(payload, kind, value);
            !w.failed && w.out == old(w.out) + Encode(d.atom) && w.open == old(w.open)
  {
    ghost var pre := w.out;
    w.StartBox(DataCode);
    var parsed := ParseData(payload);
    if parsed.None? {
      return false;
    }
    var body := DataBody(kind, parsed.value.lang, value);
    w.Write(body);
    ok := w.EndBox();
    LeafEncoding(Box(DataCode, body, []));
    if ok {
      PatchFrames(pre, DataCode, body);
    }
  }

  /** `writeExisting`. `copyOriginal` is its first result: the caller then copies
      the atom through unchanged; `ok` is false for its error. */
  method WriteExisting(w: Writer, tags: Tags, key: string, payload: seq<Byte>)
    returns (copyOriginal: bool, ok: bool)
    requires w.Valid() && !w.failed
    modifies w
    ensures w.Valid()
    ensures var d := ExistingDecision(tags, key, payload);
            ok <==> !d.ParseError? && (d.Replace? ==> Fits(d.atom))
    ensures ok ==> var d := ExistingDecision(tags, key, payload);
            !w.failed && w.open == old(w.open) && (copyOriginal <==> d.CopyOriginal?)
            && w.out == old(w.out) + (if d.Replace? then Encode(d.atom) else [])
  {
    copyOriginal, ok := false, true;
    if key == "Cover" && |tags.coversData| == 0 {
      copyOriginal := true;
    } else if key == "Cover" {
      ok := RewriteData(w, payload, KindBinary, tags.coversData[0]);
    } else if key == "Disk" {
      copyOriginal := tags.diskNumber < 1;
    } else if key == "Track" {
      copyOriginal := tags.trackNumber < 1;
    } else if key == "ContentRating" {
      copyOriginal := !(0 <= tags.contentRating <= 2);
    } else {
      var toWrite := TextValue(tags, key);
      if toWrite == "" {
        copyOriginal := true;
      } else {
        ok := RewriteData(w, payload, KindUtf8, Utf8(toWrite));
      }
    }
  }
}
