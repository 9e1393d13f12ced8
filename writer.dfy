/** The length-patching box writer the engine drives: `StartBox` writes a size
    placeholder and the type and remembers where the box began; `EndBox` closes the
    innermost open box by patching its size field with the number of bytes written
    since it began. */
module BoxWriter {
  import opened Basics
  import opened Boxes

  /** The size field `StartBox` writes before the real size is known. */
  const Placeholder: seq<Byte> := [0, 0, 0, 0]

  class Writer {
    /** Everything written so far. */
    var out: seq<Byte>
    /** The start offsets of the boxes opened and not yet closed, innermost last. */
    var open: seq<nat>
    /** Set once a box was closed whose size does not fit its 32-bit field. Every
        box still open encloses that one, so each later close fails as well; the
        rewrite then ends in an error and its output is discarded. */
    var failed: bool

    ghost predicate Valid()
      reads this
    {
      forall i :: 0 <= i < |open| ==> open[i] + 8 <= |out|
    }

    constructor ()
      ensures Valid() && out == [] && open == [] && !failed
    {
      out := [];
      open := [];
      failed := false;
    }

    method StartBox(t: BoxType)
      requires Valid()
      modifies this
      ensures Valid()
      ensures out == old(out) + Placeholder + t
      ensures open == old(open) + [|old(out)|]
      ensures failed == old(failed)
    {
      open := open + [|out|];
      out := out + Placeholder + t;
    }

    method Write(bytes: seq<Byte>)
      requires Valid()
      modifies this
      ensures Valid()
      ensures out == old(out) + bytes
      ensures open == old(open) && failed == old(failed)
    {
      out := out + bytes;
    }

    /** Close the innermost open box. */
    method EndBox() returns (ok: bool)
      requires Valid() && |open| > 0
      modifies this
      ensures Valid()
      ensures open == old(open)[..|old(open)| - 1]
      ensures ok == !failed
      ensures var start := old(open)[|old(open)| - 1];
              if !old(failed) && |old(out)| - start <= MaxUint32
              then !failed && out == Patched(old(out), start)
              else failed && out == old(out)
    {
      var start := open[|open| - 1];
      open := open[..|open| - 1];
      var size := |out| - start;
      if !failed && size <= MaxUint32 {
        out := Patched(out, start);
      } else {
        failed := true;
      }
      ok := !failed;
    }

    /** Copy a box of the source file through unchanged, header included. */
    method CopyBox(b: Box)
      requires Valid()
      modifies this
      ensures Valid()
      ensures out == old(out) + Encode(b)
      ensures open == old(open) && failed == old(failed)
    {
      out := out + Encode(b);
    }
  }

  /** The bytes with the size field of the box that starts at `start` set to the
      box's length: the box runs to the end of the bytes. */
  function Patched(out: seq<Byte>, start: nat): (r: seq<Byte>)
    requires start + 8 <= |out| && |out| - start <= MaxUint32
    ensures |r| == |out|
  {
    out[..start] + Be32(|out| - start) + out[start + 4..]
  }

  /** Patching the placeholder of a box that holds `content` gives the box's framed
      bytes. */
  lemma PatchFrames(pre: seq<Byte>, t: BoxType, content: seq<Byte>)
    requires 8 + |content| <= MaxUint32
    ensures Patched(pre + Placeholder + t + content, |pre|) == pre + Frame(t, content)
  {
    var out := pre + Placeholder + t + content;
    assert out[..|pre|] == pre;
    assert out[|pre| + 4..] == t + content;
    assert Frame(t, content) == Be32(8 + |content|) + t + content;
  }
}
