# mp4tag: the tag-rewrite engine, modelled in Dafny

This project models the core of `mp4tag`, a Go library that writes iTunes-style
metadata into MP4/M4A files. It models the engine in `mp4tag/write.go` that
rewrites a file's box (atom) tree for a `Tags` edit. That engine does four
things:

- It classifies which catalog atoms already exist under `moov/udta/meta/ilst`
  (`populateAtoms`).
- It walks every box of the source file through one callback (`actualWrite`).
  Unrelated boxes are copied byte for byte. Container boxes are re-opened and
  their children visited. Catalog atoms are dropped, kept or rewritten
  (`writeExisting`). An existing `ilst` receives the new atoms at its head
  (`createAndWrite`).
- When the file has no `ilst` at all, it appends a whole
  `udta/meta/hdlr,ilst` chain at the end of `moov`, followed by a 2048-byte
  `free` box (`createIlstAndWrite`).
- It builds the new atoms with a streaming writer that patches each box's
  32-bit size field when the box closes (`marshalData`, `writeMeta`,
  `writeCovers`, `writeCustomMeta`).

The model is organised as follows:

| module | file | what it holds |
|---|---|---|
| `Basics` | basics.dfy | bytes, big-endian fields, UTF-8 of Go strings |
| `Boxes` | boxes.dfy | the box tree, its byte encoding (`Frame`, `Encode`), the `data` atom layout, the failure-aware output algebra `Out` |
| `Catalog` | catalog.dfy | `atomsMap` as two parallel tables, `getTag`, `getAtomsList`, `containsAtom`, `containsTag` |
| `TagSet` | tags.dfy | the `Tags` record, Go reflection's `String()` on its fields, the track/disk and rating payloads |
| `Text` | text.dfy | `strings.ToUpper` and `strings.EqualFold` |
| `BoxWriter` | writer.dfy | `mp4.Writer` as a class: output bytes, a stack of open boxes, a sticky failure flag |
| `Emitters` | emitters.dfy | the four emitters, as methods on the writer proved against box values |
| `Creation` | creation.dfy | the atoms `createAndWrite` creates, and the methods that write them |
| `Presence` | presence.dfy | `populateAtoms` and the `ExtractBox` queries it makes |
| `Existing` | existing.dfy | `writeExisting`'s decision table and method |
| `Dispatch` | dispatch.dfy | the walk as a recursive function over the box tree, with the `currentKey` cursor |
| `Rewriting` | rewrite.dfy | the walk as recursive methods on the writer, each proved equal to `Dispatch` |
| `Outcomes` | outcomes.dfy | what the rewrite does to whole atoms and to whole files |
| `NoOpEdit` | noop.dfy | the edit that asks for nothing, and the file it gives back |

Every writing method is specified by a pure function of its inputs. Its
`ensures` says when it fails. The emitters of new atoms fail exactly when a
box outgrows its 32-bit size field. The methods that read an
existing `data` payload (`Existing.RewriteData`, `Existing.WriteExisting`,
`Rewriting.DataCase`, `Rewriting.VisitBox`) also fail on a payload shorter
than 8 bytes. On success the bytes a method appends are exactly the
function's encoding, and it leaves the writer's stack of open boxes as it
found it (emitter balance). `Rewriting.ActualWrite` is proved to return
`Dispatch.Rewrite`. The properties of the rewrite are proved about
`Dispatch`, in `Outcomes`.

Some behaviours of the code look unintended. The model keeps each one as the
code has it:

- An existing `trkn` or `disk` atom whose number the edit sets loses its
  `data` child but keeps its shell. The new atom is created at the head of
  `ilst` (`Outcomes.TrackAtomEmptied`, `Outcomes.DiskAtomEmptied`,
  `Existing.NumbersDropped`).
- When the file has an `ilst`, a catalog atom met outside it (directly under
  `udta`, say) whose code `ilst` lacks, and whose name is a `Tags` field, is
  marked "to create". It keeps its shell and loses its `data` atoms, even under
  an edit that asks for nothing (`Outcomes.OrphanMarked`,
  `Outcomes.OrphanAtomEmptied`).
- When a file has no `ilst`, `populateAtoms` marks every visible `Tags` field
  as "to create", except `Custom`, `TrackTotal` and `DiskTotal`. Six of them
  name no catalog atom: `CoversData`, `Delete`, `DiskNumber`, `TrackNumber`,
  `ContentRatingStr` and `yearStr`. Each gets an atom of the zero box type
  holding the text reflection reads from it whenever that text is not empty
  (`Outcomes.BootstrapWritesZeroTypeAtoms`, `Outcomes.ZeroTypeAtomsOnlyThose`).
  So every bootstrap writes at least four of them, holding
  `<[][]uint8 Value>`, `<[]string Value>` and twice `<int Value>`
  (`Outcomes.ZeroTypeTexts`). A set `yearStr` is written twice: once in the
  year's own atom and once in a zero-type atom. A set `ContentRatingStr` is
  written in a zero-type atom too.
- An edit that leaves the content rating at its default 0 still drops the
  `data` atom of an existing `rtng`, because 0 lies in 0..2
  (`Outcomes.RatingDroppedByDefault`, `Outcomes.RatingAtomEmptied`).
- When the file has no `ilst` but `moov` already holds a `udta` (with no
  `meta/ilst` path below it), the bootstrap appends a second `udta` after the
  old one (`Outcomes.BootstrapOutput`).
- Existing `cpil`, `soal` and `soaa` atoms name no `Tags` field. Reflection
  reads them as `<invalid Value>`, and the rewrite writes that text into them
  (`Existing.UnnamedFieldsOverwritten`).
- The `hdlr` payload is 26 bytes, as the code writes it (8 zero bytes,
  "mdirappl", 10 zero bytes).

Apart from these, an edit that asks for nothing leaves a file with an `ilst`
byte for byte as it was (`NoOpEdit.NoOpRewrite`). That is, the walk meets no
`rtng`, `cpil`, `soal` or `soaa` atom and no catalog atom whose code `ilst`
lacks, and every box it enters fits its 32-bit size field.

## Model

| member | source | states |
|---|---|---|
| Basics.Be32 | mp4tag/write.go:242-243 | `PutUint32` writes four bytes that read back, big-endian, as the number |
| Basics.Be16 | mp4tag/write.go:244-246 | `PutUint16` writes two bytes that read back, big-endian, as the number |
| Basics.Zeros | mp4tag/write.go:580 | `bytes.Repeat([]byte{0}, n)` is n bytes, all zero |
| Basics.Utf8 | mp4tag/write.go:111 | `[]byte(s)` is at least as long as `s` and empty exactly when `s` is |
| Basics.EncodeCharDecodes | mp4tag/write.go:399 | the bytes of one character are UTF-8: the lead byte announces the length, the rest are continuation bytes, and they decode back to the character |
| Basics.Utf8Append | mp4tag/write.go:399 | `[]byte(a + b)` is `[]byte(a)` then `[]byte(b)` |
| Basics.Utf8OfChar | mp4tag/write.go:399 | a one-character string's bytes are that character's UTF-8 encoding |
| Basics.Utf8Injective | mp4tag/write.go:181 | distinct strings (text values, custom keys) are written as distinct bytes |
| Basics.Utf8OfAscii | mp4tag/write.go:111 | `[]byte(s)` of an ASCII string is one byte per character, equal to its code point |
| Boxes.Frame | mp4tag/write.go:57 | a closed box is 8 + content bytes; bytes 4..8 are its type and its size field reads back as its length when that fits 32 bits |
| Boxes.Encode | mp4tag/write.go:40-59 | the bytes of a box as `copy` and `CopyBox` write it: an 8-byte header, then the payload, then the children |
| Boxes.EncodeAll | mp4tag/write.go:53-56 | the bytes of sibling boxes, one after the other in file order |
| Boxes.Wrap | mp4tag/write.go:306 | closing a box fails exactly when its content failed or it outgrows the 32-bit size field; otherwise it yields the framed content |
| Boxes.HeaderOfEncode | mp4tag/write.go:57 | a box that fits carries its own length (8 + payload + children) in its size field and its type after it |
| Boxes.EmitAllSpec | mp4tag/write.go:142-147 | writing a run of boxes fails exactly when one of them does not fit, and otherwise yields their encodings in order |
| Boxes.ParseData | mp4tag/write.go:393-397 | reading a `data` payload succeeds exactly for at least 8 bytes, giving a 32-bit data type and a 4-byte locale |
| Boxes.DataBody | mp4tag/write.go:397-400 | the marshalled `data` payload is 8 + value bytes and reads back as the same type, locale and value (round trip) |
| Boxes.DataBox | mp4tag/write.go:102-122 | a freshly marshalled `data` atom reads back with locale zero and the given type and value |
| Text.ToUpper | mp4tag/write.go:294 | same length, each letter a..z upper-cased and every other character kept |
| Text.EqualFold | mp4tag/write.go:422 | `strings.EqualFold` on ASCII letters: same length, and equal characters after upper-casing each |
| Text.EqualFoldIsUpperEquality | mp4tag/write.go:422 | `EqualFold` holds exactly when both strings upper-case to the same string |
| Text.EqualFoldReflexiveSymmetric | mp4tag/write.go:422 | `EqualFold` is reflexive and symmetric |
| TagSet.FieldString | mp4tag/write.go:279 | reflection's `String()`: a string field gives its value, a non-string field `<T Value>`, a name that is no field `<invalid Value>` |
| TagSet.TextValue | mp4tag/write.go:273-280 | the text written for a name: `yearStr` for "Year", the field's reflected string otherwise |
| TagSet.Low32 | mp4tag/write.go:243 | `uint32(x)` lies in 0..2^32-1 and is x itself when x is in that range |
| TagSet.Low16 | mp4tag/write.go:245 | `uint16(x)` lies in 0..65535 and is x itself when x is in that range |
| TagSet.Low8 | mp4tag/write.go:253 | `byte(x)` is x itself when x is in 0..255 |
| TagSet.NumberPayload | mp4tag/write.go:241-246 | the `trkn`/`disk` payload: 8 bytes, number as BE32, total as BE16 when positive and zero otherwise, two zero bytes |
| TagSet.RatingPayload | mp4tag/write.go:253 | the `rtng` payload is one byte, the rating's low 8 bits |
| TagSet.NumberPayloadExample | mp4tag/write.go:241-246 | track 7 of 12 is `00 00 00 07 00 0C 00 00` |
| Catalog.TableIsBijective | mp4tag/write.go:19-38 | 18 entries with distinct names and distinct codes, none of them the zero type |
| Catalog.AtomCode | mp4tag/write.go:19-38 | `atomsMap[name]` is the name's code, or the zero box type for a name outside the map |
| Catalog.GetTag | mp4tag/write.go:429-436 | `getTag` is empty exactly for codes outside the map, and otherwise the one name mapped to the code |
| Catalog.GetTagInvertsAtomCode | mp4tag/write.go:429-436 | `getTag(atomsMap[k]) == k` for every name in the map |
| Catalog.AtomCodeInvertsGetTag | mp4tag/write.go:429-436 | `atomsMap[getTag(t)] == t` for every code in the map |
| Catalog.FixedCodes | mp4tag/write.go:26-34 | "Cover", "Disk", "Track" and "ContentRating" map to `covr`, `disk`, `trkn` and `rtng` |
| Catalog.NameOfCode | mp4tag/write.go:19-38 | the only name mapped to a code is that code's entry |
| Catalog.AtomsList | mp4tag/write.go:438-444 | `getAtomsList` has 18 codes, exactly the values of the map |
| Catalog.ContainsAtom | mp4tag/write.go:411-418 | the type itself when it is in the list, the zero box type otherwise |
| Catalog.CatalogCaseMatches | mp4tag/write.go:504 | the switch's `containsAtom` case matches exactly catalog codes and the zero box type |
| Catalog.ContainersOutsideCatalog | mp4tag/write.go:489-514 | `moov`, `udta`, `meta`, `ilst` and `data` are no catalog codes, so the switch's cases never overlap |
| Catalog.ContainsTag | mp4tag/write.go:420-427 | true exactly when some entry of the delete list equals the tag up to case |
| Presence.Select | mp4tag/write.go:63-64 | the boxes of one type among siblings, and nothing else |
| Presence.Children | mp4tag/write.go:63-64 | the boxes one level down, and nothing else |
| Presence.Extract | mp4tag/write.go:63-67 | `ExtractBox`: the boxes reached by following a path of box types from the top level, the last step included |
| Presence.LevelSnoc | mp4tag/write.go:89-90 | a box path one type longer reaches the children of the boxes of that type at the shorter path |
| Presence.IlstCodes | mp4tag/write.go:63-67 | "no ilst" exactly when `ExtractBox` finds nothing at `moov/udta/meta/ilst` |
| Presence.IlstCodesMatchExtract | mp4tag/write.go:89-94 | a code is among the existing atoms exactly when `ExtractBox` finds it at `moov/udta/meta/ilst/<code>` |
| Presence.Key | mp4tag/write.go:80-84 | "TrackNumber" becomes "Track", "DiskNumber" becomes "Disk", every other field name is kept |
| Presence.FieldKeys | mp4tag/write.go:70-88 | the keys one field adds: none for `Custom`, `TrackTotal`, `DiskTotal`; on bootstrap the field's own name; its catalog key when that is a catalog name |
| Presence.NeedsCreating | mp4tag/write.go:76-94 | the flag of a key: always "create" on bootstrap, otherwise "create" exactly when no atom of its code is in `ilst` |
| Presence.Classification | mp4tag/write.go:62-100 | the map `populateAtoms` returns: the keys every classified field adds, each with its flag |
| Presence.ClassifyField | mp4tag/write.go:70-95 | one pass of the loop adds the keys the field yields, marks each as needing creation exactly as the file dictates, and leaves other keys alone |
| Presence.PopulateAtoms | mp4tag/write.go:62-100 | the "no ilst" result is reported exactly when the file has no `ilst`, and the map built is the classification |
| Presence.KeysOfMember | mp4tag/write.go:70-95 | a key is in the map exactly when some field yields it |
| Presence.KeysRule | mp4tag/write.go:72-88 | which keys the map holds, with and without an `ilst` |
| Presence.PassedOverFields | mp4tag/write.go:72-88 | `Custom`, `TrackTotal`, `DiskTotal`, fields outside the catalog, and the raw "TrackNumber"/"DiskNumber" never appear when an `ilst` exists |
| Presence.NeverKey | mp4tag/write.go:72-88 | the same fact for any list of fields |
| Presence.CoverNeverClassified | mp4tag/write.go:69-88 | "Cover" never appears, since the field is `CoversData` |
| Presence.NumberKeys | mp4tag/write.go:80-85 | "Track" and "Disk" always appear when an `ilst` exists |
| Presence.BootstrapCreatesAll | mp4tag/write.go:76-78 | without an `ilst`, every key is marked for creation |
| Presence.ClassificationMatchesFile | mp4tag/write.go:89-94 | with an `ilst`, a key is marked for creation exactly when the file has no atom of its code there |
| Emitters.DataAtomOf | mp4tag/write.go:102-122 | a string is marshalled as UTF-8 data and bytes as binary data, with locale zero and the value itself |
| Emitters.MetaBox | mp4tag/write.go:124-135 | a tag atom of the given type whose only child is that data atom |
| Emitters.CoversBox | mp4tag/write.go:137-150 | the `covr` atom whose children are the cover data atoms |
| Emitters.CoverAtomsSpec | mp4tag/write.go:142-147 | one binary data atom per image, in order |
| Emitters.CustomBox | mp4tag/write.go:152-195 | a `----` atom holding `mean` ("com.apple.iTunes" after 4 zero bytes), `name` (the key after 4 zero bytes) and the data atom, in that order |
| Emitters.CloseBox | mp4tag/write.go:133 | patching a box's size succeeds exactly when the box fits, and leaves the box's encoding after what preceded it |
| Emitters.WriteLeaf | mp4tag/write.go:157-172 | writes one box without children: its encoding, stack unchanged, failing exactly when it does not fit |
| Emitters.MarshalData | mp4tag/write.go:102-122 | appends exactly the data atom's encoding, with the stack unchanged; fails exactly when it does not fit |
| Emitters.WriteMeta | mp4tag/write.go:124-135 | appends exactly the tag atom's encoding, with the stack unchanged; fails exactly when it does not fit |
| Emitters.WriteCoverAtoms | mp4tag/write.go:142-147 | appends the cover data atoms in order; fails exactly when one of them does not fit, naming the image that did not |
| Emitters.WriteCovers | mp4tag/write.go:137-150 | appends exactly the `covr` atom's encoding, with the stack unchanged; fails exactly when it does not fit |
| Emitters.WriteCustomMeta | mp4tag/write.go:152-195 | appends exactly the `----` atom's encoding, with the stack unchanged; fails exactly when it does not fit |
| BoxWriter.Writer.constructor | mp4tag/write.go:487 | a new writer has no output and no open box |
| BoxWriter.Writer.StartBox | mp4tag/write.go:103 | appends a size placeholder and the type, and pushes the box's start |
| BoxWriter.Writer.Write | mp4tag/write.go:161 | appends the bytes |
| BoxWriter.Writer.EndBox | mp4tag/write.go:120 | pops the innermost box and patches its size with its length, or fails (stickily) when the length exceeds 32 bits |
| BoxWriter.Writer.CopyBox | mp4tag/write.go:516 | appends the source box's bytes unchanged |
| BoxWriter.Patched | mp4tag/write.go:120 | patching keeps the output's length |
| BoxWriter.PatchFrames | mp4tag/write.go:120 | patching an opened and filled box yields exactly its framed bytes |
| Creation.NeedCreate | mp4tag/write.go:518 | `atoms[key]`, false for a missing key |
| Creation.TextAtomFor | mp4tag/write.go:269-289 | each name yields at most one text atom |
| Creation.CustomAtomFor | mp4tag/write.go:290-298 | each custom key yields at most one `----` atom |
| Creation.TextStep | mp4tag/write.go:269-289 | one step of the text loop, as a function of the map key |
| Creation.CustomStep | mp4tag/write.go:290-298 | one step of the custom-entry loop, as a function of the map key |
| Creation.Gather | mp4tag/write.go:269-298 | the atoms a map iteration in a given order creates, in that order |
| Creation.FixedAtoms | mp4tag/write.go:235-268 | the `covr`, `trkn`, `rtng` and `disk` atoms, each only when the edit sets it, in that order |
| Creation.NewAtoms | mp4tag/write.go:235-298 | every atom `createAndWrite` creates: the fixed atoms, then the text atoms, then the custom atoms |
| Creation.GatherMember | mp4tag/write.go:269-298 | an atom is created exactly when some entry in the iteration creates it |
| Creation.GatherPermutation | mp4tag/write.go:269-298 | two iteration orders that are permutations create the same multiset of atoms |
| Creation.OrdersArePermutations | mp4tag/write.go:269 | any two iteration orders of a map's keys are permutations of each other |
| Creation.FixedAtomsFirst | mp4tag/write.go:235-268 | the new atoms start with `covr`, `trkn`, `rtng` and `disk`, in that order, each only when set |
| Creation.NewAtomsOrderIndependent | mp4tag/write.go:235-298 | whatever order Go iterates its maps in, the fixed atoms come first, and the text and custom atoms are the same multiset |
| Creation.TextAtomsSound | mp4tag/write.go:269-289 | every text atom created is for a key marked for creation, not a fixed one, and with a non-empty value |
| Creation.TextAtomsComplete | mp4tag/write.go:269-289 | every such key gets its text atom |
| Creation.CustomAtomsSound | mp4tag/write.go:290-298 | every `----` atom created is for a custom key with a non-empty value, upper-cased |
| Creation.CustomAtomsComplete | mp4tag/write.go:290-298 | every such custom key gets its `----` atom |
| Creation.TextAtomCodes | mp4tag/write.go:270-284 | a text atom never has the `trkn`, `rtng` or `disk` code |
| Creation.TrackAtomIffNumber | mp4tag/write.go:241-251 | a `trkn` atom is created exactly when the track number is positive, and it holds the 8-byte number payload |
| Creation.WriteTextAtoms | mp4tag/write.go:269-289 | appends exactly the text atoms for the given iteration order; fails exactly when one does not fit |
| Creation.WriteCustomAtoms | mp4tag/write.go:290-298 | appends exactly the `----` atoms for the given iteration order; fails exactly when one does not fit |
| Creation.WriteFixedAtoms | mp4tag/write.go:235-268 | appends exactly the fixed atoms; fails exactly when one does not fit |
| Creation.WriteNumberAtom | mp4tag/write.go:241-267 | appends the `trkn`, `rtng` or `disk` atom only when the number is positive |
| Creation.WriteNewAtoms | mp4tag/write.go:235-298 | appends exactly every new atom, in the order written; fails exactly when one does not fit |
| Existing.Rewritten | mp4tag/write.go:389-405 | an error exactly when the old payload cannot be read; otherwise a `data` atom with the old locale and the new type and value |
| Existing.ExistingDecision | mp4tag/write.go:310-409 | `writeExisting`'s decision: keep the original, drop it, rewrite it, or fail |
| Existing.KeptWhenNothingToWrite | mp4tag/write.go:310-382 | the original is kept exactly when there are no covers, a disk or track number below 1, a rating outside 0..2, or an empty text value |
| Existing.NumbersDropped | mp4tag/write.go:343-369 | the `disk`, `trkn` and `rtng` data are dropped exactly when the edit sets them, and never rewritten |
| Existing.TextRewritten | mp4tag/write.go:370-405 | a text atom with a new value reads back as UTF-8 holding it in the old locale; it fails only for an unreadable payload |
| Existing.CoverRewritten | mp4tag/write.go:314-338 | an existing cover takes the first new image as binary data, keeping its locale |
| Existing.UnnamedFieldsOverwritten | mp4tag/write.go:373-405 | names without a `Tags` field get the text `<invalid Value>` |
| Existing.RewriteData | mp4tag/write.go:389-405 | appends exactly the rewritten atom; fails exactly on an unreadable payload or an atom too big |
| Existing.WriteExisting | mp4tag/write.go:310-409 | reports "copy the original" exactly for that decision, appends exactly the rewritten atom when there is one and nothing otherwise, and fails exactly on the decision's errors |
| Dispatch.NewIlst | mp4tag/write.go:603-683 | the new `ilst`: no payload, the created atoms as its children |
| Dispatch.HdlrBox | mp4tag/write.go:586-597 | the `hdlr` box holding the handler payload |
| Dispatch.NewMeta | mp4tag/write.go:574-689 | the new `meta`: four zero bytes, then `hdlr`, then the new `ilst` |
| Dispatch.Chain | mp4tag/write.go:566-695 | the new `udta` holding only that `meta` |
| Dispatch.FreeBox | mp4tag/write.go:703-718 | the `free` box: 2040 zero bytes after its header |
| Dispatch.HdlrPayload | mp4tag/write.go:588-591 | the handler payload is 26 bytes |
| Dispatch.HandlerIsMdirAppl | mp4tag/write.go:588-591 | it is all zero except bytes 8..15, which spell "mdirappl" |
| Dispatch.DataWalk | mp4tag/write.go:514-528 | the `data` case: the cursor survives exactly under an atom created afresh, and only `writeExisting` can fail |
| Dispatch.Visit | mp4tag/write.go:488-533 | the callback's switch: `moov` with the bootstrap on, the containers, `ilst`, everything else |
| Dispatch.VisitAtom | mp4tag/write.go:504-531 | the catalog case, the `data` case and the default case, in the switch's order |
| Dispatch.CatalogAtom | mp4tag/write.go:504-513 | an atom replaced by new covers or deleted is dropped; otherwise it is copied with the cursor set to its name |
| Dispatch.Copy | mp4tag/write.go:40-59 | `copy`: the box re-opened with its payload around its visited children |
| Dispatch.CreateAndWrite | mp4tag/write.go:222-308 | `createAndWrite`: the `ilst` payload, every new atom, then the visited children |
| Dispatch.CreateIlst | mp4tag/write.go:542-721 | `createIlstAndWrite`: `moov`'s visited children, its payload, the new chain, then the free box |
| Dispatch.VisitAll | mp4tag/write.go:488-533 | `ReadBoxStructure` over siblings: each box visited from the cursor the previous one left, stopping at the first error |
| Dispatch.EnvOf | mp4tag/write.go:476-486 | the classification of the file's `ilst`, and the bootstrap flag exactly when `populateAtoms` reports "no ilst atom" |
| Dispatch.Rewrite | mp4tag/write.go:461-540 | `actualWrite`'s output: the walk over the whole file with an empty cursor |
| Dispatch.VisitAllStep | mp4tag/write.go:488-533 | visiting one more sibling extends the walk by that box's visit, unless the walk has already failed |
| Dispatch.VisitAllStops | mp4tag/write.go:488-533 | once the callback returns an error the walk fails |
| Rewriting.VisitBox | mp4tag/write.go:488-533 | the callback on one box succeeds exactly when the walk does, writes the walk's bytes and leaves its cursor |
| Rewriting.VisitAtom | mp4tag/write.go:504-531 | the same for the catalog, `data` and default cases |
| Rewriting.CatalogAtom | mp4tag/write.go:504-513 | the same for the `containsAtom` case |
| Rewriting.VisitChildren | mp4tag/write.go:53-56 | `Expand` visits the children in order, as the walk does |
| Rewriting.CopyBox | mp4tag/write.go:40-59 | `copy` writes the box's payload and its visited children in the box, as the walk does |
| Rewriting.CreateAndWrite | mp4tag/write.go:222-308 | writes the `ilst` payload, every new atom, then the visited children, all in `ilst` |
| Rewriting.CreateIlstAndWrite | mp4tag/write.go:542-721 | writes `moov`'s visited children, its payload and the new chain inside `moov`, then the free box |
| Rewriting.WriteIlst | mp4tag/write.go:603-683 | appends exactly the new `ilst` holding the new atoms |
| Rewriting.WriteNewMeta | mp4tag/write.go:574-689 | appends exactly the new `meta`: four zero bytes, the handler box, the new `ilst` |
| Rewriting.WriteChain | mp4tag/write.go:566-695 | appends exactly the new `udta` around that `meta` |
| Rewriting.DataCase | mp4tag/write.go:514-528 | the `data` case writes and sets the cursor as the walk does |
| Rewriting.ActualWrite | mp4tag/write.go:461-540 | the written file is exactly the walk's output on the classified file, or an error when the walk fails |
| Outcomes.PlainCopied | mp4tag/write.go:529-530 | a box the switch has no case for is copied unchanged and leaves the cursor alone |
| Outcomes.PlainRunCopied | mp4tag/write.go:488-533 | a run of such boxes is copied unchanged |
| Outcomes.VisitOne | mp4tag/write.go:488-533 | the walk over one box is that box's visit |
| Outcomes.VisitAllAppend | mp4tag/write.go:488-533 | the walk over two runs is the walk over the first, then the second from the cursor it left |
| Outcomes.DataVisit | mp4tag/write.go:514 | a `data` box always takes the `data` case |
| Outcomes.StrayDataCopied | mp4tag/write.go:515-517 | a `data` box with no cursor is copied unchanged |
| Outcomes.DeletedAtomDropped | mp4tag/write.go:508-511 | a catalog atom whose name is in the delete list is dropped with its children, and sets the cursor |
| Outcomes.OldCoversDropped | mp4tag/write.go:505-507 | an existing `covr` is dropped when new covers are given, and leaves the cursor alone |
| Outcomes.CatalogAtomCopied | mp4tag/write.go:504-513 | a kept catalog atom is copied with the cursor set to its name |
| Outcomes.OneDataAtom | mp4tag/write.go:504-528 | a kept catalog atom with one `data` child becomes the atom around that child's `data` case |
| Outcomes.CopiedChildBytes | mp4tag/write.go:512-525 | an atom re-opened around its copied only child yields the atom's own bytes |
| Outcomes.TextDecision | mp4tag/write.go:370-405 | the rewrite of an existing text atom with a new value and a readable payload |
| Outcomes.TextData | mp4tag/write.go:397-400 | the rewritten `data` atom reads back as UTF-8 holding the new value, in the old locale |
| Outcomes.TextDataWalk | mp4tag/write.go:518-523 | under such an atom the `data` case writes the rewritten `data` atom and clears the cursor |
| Outcomes.TrackDataWalk | mp4tag/write.go:356-359 | under an existing `trkn` when a track number is set, the `data` case writes nothing |
| Outcomes.DataRunKept | mp4tag/write.go:514-526 | a run of `data` atoms whose first is kept is copied unchanged: the first clears the cursor, the rest are met with none |
| Outcomes.RawChildrenBytes | mp4tag/write.go:40-59 | a box re-opened around its children copied unchanged yields the box's own bytes, or fails exactly when the box does not fit |
| Outcomes.RatingDroppedByDefault | mp4tag/write.go:366-369 | with the rating left at 0, an existing `rtng`'s `data` is dropped |
| Outcomes.RatingDataWalk | mp4tag/write.go:366-369 | under an existing `rtng` when the rating is in 0..2, the `data` case writes nothing |
| Outcomes.KeptAtomUnchanged | mp4tag/write.go:504-526 | an existing atom the edit has nothing for comes out byte for byte as it was, whatever number of `data` atoms it holds; the cursor is cleared after the first `data` atom, and an empty shell leaves it set |
| Outcomes.TextAtomRewritten | mp4tag/write.go:370-405 | an existing text atom with a new value comes out as the same atom holding the rewritten `data` |
| Outcomes.TrackAtomEmptied | mp4tag/write.go:356-359 | an existing `trkn` whose number the edit sets comes out as an empty `trkn` shell |
| Outcomes.DiskAtomEmptied | mp4tag/write.go:343-346 | an existing `disk` whose number the edit sets comes out as an empty `disk` shell |
| Outcomes.DataRunDropped | mp4tag/write.go:518-528 | under the name of an atom marked "to create", every `data` atom is dropped and the name stays the cursor |
| Outcomes.OrphanAtomEmptied | mp4tag/write.go:504-528 | a kept catalog atom whose name is marked "to create" comes out as an empty shell of its type, and its name stays the cursor |
| Outcomes.OrphanMarked | mp4tag/write.go:86-94 | with an `ilst`, a key whose code `ilst` lacks is marked "to create" |
| Outcomes.RatingAtomEmptied | mp4tag/write.go:366-369 | an existing `rtng` when the rating is in 0..2, the default 0 included, comes out as an empty `rtng` shell |
| Outcomes.NewAtomsFirst | mp4tag/write.go:222-308 | an existing `ilst` comes out as its payload, then all new atoms, then its rewritten children; it fails exactly when one part fails or it outgrows 32 bits |
| Outcomes.FreePadding | mp4tag/write.go:703-718 | the free box is 2048 bytes, declares 2048 in its size field, has type `free` and is zero after its header |
| Outcomes.BootstrapMoov | mp4tag/write.go:542-721 | a `moov` whose children the walk turned into some boxes becomes `moov` holding those boxes and then the new chain, followed by the free box, or an error when it outgrows 32 bits |
| Outcomes.GrownMoovBytes | mp4tag/write.go:542-701 | the grown `moov` is its children's bytes followed by the chain's, and fits only if the chain fits |
| Outcomes.ShapeHasNoIlst | mp4tag/write.go:63-67 | a file whose `moov` holds no `udta/meta/ilst` is classified as having no `ilst` |
| Outcomes.FileSplice | mp4tag/write.go:488-533 | the same at any position in the file |
| Outcomes.BootstrapWalk | mp4tag/write.go:488-498 | with the bootstrap on, such a file is rewritten to itself with the grown `moov` and the free box in place of `moov` |
| Outcomes.BootstrapOutput | mp4tag/write.go:461-540 | for a file without `ilst` whose top-level boxes other than `moov` pass through, the rewrite turns the bootstrap on and writes the file with the grown `moov` and the free box in its place, or fails exactly when `moov` outgrows 32 bits; `moov`'s children may be any boxes (an old `udta` stays beside the new one) |
| Outcomes.PlainBootstrapOutput | mp4tag/write.go:461-540 | the same for a `moov` whose children all pass through: `moov` keeps them and gets the chain after them |
| Outcomes.GrownIsOnlyMoov | mp4tag/write.go:542-701 | the rewritten file's only `moov` is the grown one |
| Outcomes.ChainIsOnlyUdta | mp4tag/write.go:566-695 | the grown `moov`'s only `udta` is the new chain |
| Outcomes.ChainLevels | mp4tag/write.go:566-695 | below the new chain, the path `udta/meta/ilst` reaches exactly the new `ilst` |
| Outcomes.MoovLevel | mp4tag/write.go:542-701 | one level below `moov` in the rewritten file is the chain, as its only `udta` |
| Outcomes.BootstrapFoundOnReread | mp4tag/write.go:62-100 | a second rewrite of the bootstrapped file finds an `ilst` holding exactly the created atoms' codes |
| Outcomes.ZeroTypeFieldMarked | mp4tag/write.go:72-88 | on bootstrap `CoversData`, `Delete`, `DiskNumber`, `ContentRatingStr`, `TrackNumber` and `yearStr` are marked for creation and map to the zero box type |
| Outcomes.ZeroTypeTexts | mp4tag/write.go:273-280 | reflection reads the first four as non-empty placeholders and the last two as their values |
| Outcomes.BootstrapWritesZeroTypeAtoms | mp4tag/write.go:269-289 | without an `ilst`, each of those fields with a non-empty text gets an atom of the zero box type holding it |
| Outcomes.ZeroTypeAtomsOnlyThose | mp4tag/write.go:235-298 | and every atom of the zero box type created on bootstrap is one of those |
| Outcomes.ZeroTypeName | mp4tag/write.go:70-88 | a bootstrap key whose code is the zero box type is one of those six fields |
| NoOpEdit.DataKept | mp4tag/write.go:514-526 | a `data` atom under a cursor the edit has nothing for is copied, and the cursor is cleared |
| NoOpEdit.CopyKeeps | mp4tag/write.go:40-59 | `copy` of a box whose children came out unchanged yields the box |
| NoOpEdit.IlstKeeps | mp4tag/write.go:222-308 | with no new atoms, an `ilst` whose children came out unchanged is written back unchanged |
| NoOpEdit.CatalogCopied | mp4tag/write.go:504-513 | with no covers and nothing to delete, a catalog atom is copied under its name |
| NoOpEdit.CatalogKeyQuiet | mp4tag/write.go:504-526 | under the empty edit the name of a catalog atom present in `ilst` and not `rtng`, `cpil`, `soal` or `soaa` leaves its `data` atoms unchanged |
| NoOpEdit.VisitKeeps | mp4tag/write.go:488-533 | under the empty edit every box comes out byte for byte |
| NoOpEdit.VisitAllKeeps | mp4tag/write.go:488-533 | and so does every run of boxes |
| NoOpEdit.EmptyText | mp4tag/write.go:273-280 | in the empty edit every text field reads as empty |
| NoOpEdit.EmptyEditKeeps | mp4tag/write.go:310-382 | the empty edit keeps the `data` of every catalog atom but `rtng`, `cpil`, `soal` and `soaa` |
| NoOpEdit.ClassifiedNames | mp4tag/write.go:70-94 | with an `ilst`, the map never holds `compilation`, `albumSort` or `artistSort` |
| NoOpEdit.NoTextAtom | mp4tag/write.go:269-289 | the empty edit creates no text atom |
| NoOpEdit.EmptyEditInert | mp4tag/write.go:222-308 | on a file with an `ilst` the empty edit creates nothing, drops nothing and keeps the `data` of every atom it meets |
| NoOpEdit.NoOpRewrite | mp4tag/write.go:461-540 | the empty edit on a file with an `ilst` (no `rtng`, `cpil`, `soal` or `soaa` atom, no catalog atom whose code `ilst` lacks, every entered box within 32 bits) writes the file back byte for byte |

## Left out

- File I/O is not modelled: the temporary directory and file, `copyTrack`, the
  buffered reader and closing files. The input is the file's box tree and the
  output is the written bytes, or `None` when the rewrite fails.
- Writer I/O errors are not modelled. `StartBox` and `Write` cannot fail in the
  model. `EndBox` fails only when a box outgrows the 32-bit size field, and
  that failure is sticky.
- The go-mp4 library is not part of this model. `ReadBoxStructure` becomes the
  walk over a given box tree. A box's payload is kept as its bytes, and
  re-marshalling it is the identity. The 64-bit `largesize` header is not
  modelled. `ExtractBox` becomes `Presence.Extract` over the tree.
- A box whose encoding is not the compact 8-byte header form is not modelled.
  `CopyBox` reproduces `Encode(b)`, which equals the source bytes only for
  such headers.
- Rewriting.CreateAndWrite, Dispatch.CreateAndWrite: an error while visiting
  an existing `ilst`'s children aborts the rewrite in the model
  (`Cat(..., c.out)` fails). The source only prints the `Expand` error
  (write.go:300-305), but the failing child has left a box open: a `data` atom
  opened by `StartBox` (write.go:320, :389) whose payload then cannot be read
  (write.go:324, :393), or a catalog atom whose `copy` returned (write.go:53-55)
  before its `EndBox` (write.go:57). The `EndBox` at write.go:306 then closes
  the innermost box still open instead of the `ilst`, every later `EndBox`
  (`meta`, `udta`, `moov`) closes the wrong box as well, and the file is
  written with wrong box sizes. The model does not reproduce those bytes.
- `mp4.Context` (`UnderIlstMeta`, `UnderUdta`) only steers go-mp4's payload
  decoding. It has no effect on the bytes modelled here.
- Go map iteration order (`atoms`, `tags.Custom`, `getTag`'s scan) is random.
  The model takes `atomOrder` and `customOrder` as parameters and proves the
  created atoms the same multiset for any two orders.
- Creation.NewAtomsOrderIndependent: only the multiset of created atoms is
  order-independent, not their sequence, because the source's order is
  random.
- `getAtomsList` is modelled in table order. Only membership is used.
- Reflection (`reflect.VisibleFields`, `FieldByName(...).String()`) is
  modelled by the explicit field list `TagSet.FieldNames` and the Go
  placeholder strings for non-string fields.
- Outcomes.BootstrapOutput: proved for files whose top-level boxes other than
  `moov` pass through and whose `moov` has no payload of its own (go-mp4's
  `moov` has no fields). A file with a top-level `udta`, `meta` or catalog atom
  beside `moov` is not covered.
- Go strings that are not valid UTF-8 (tag values, custom keys) cannot be
  expressed: `Basics.Utf8` encodes Dafny strings, whose characters are Unicode
  scalar values, and Go copies the bytes of such strings as they are.
- Text.ToUpper, Text.EqualFold: ASCII letters only. Unicode case mapping is
  not modelled.
- Go's `int` is unbounded in the model. The conversions `uint32`, `uint16` and
  `byte` are written out explicitly.
- The `Cover` rewrite branch of `writeExisting` (write.go:314-338) is modelled
  and proved, but the walk never reaches it: the `covr` atom is dropped
  whenever covers are given (write.go:505-507).
- The errors of the `hdlr` and `free` `StartBox` calls (write.go:586 and
  write.go:704) are ignored by the source. The model's `StartBox` cannot fail,
  so there is nothing to ignore.
- Logging (`fmt.Println`) and the commented-out `writeCover` are left out.
  `main.go` and the read path are not part of this model.
