/** Seekable byte sources: what a read returns and where a seek goes, and an open file. */
module Files {
  import opened Bytes

  datatype Whence = Start | Current | End

  /** What a read of up to `count` bytes at `pos` returns; `pos` may lie beyond the end. */
  function Available(content: seq<Byte>, pos: nat, count: nat): (bytes: seq<Byte>)
    ensures pos >= |content| ==> bytes == []
    ensures pos < |content| ==> |bytes| == if count <= |content| - pos then count else |content| - pos
    ensures pos < |content| ==> bytes == content[pos..pos + |bytes|]
  {
    if pos >= |content| then []
    else if pos + count <= |content| then content[pos..pos + count]
    else content[pos..]
  }

  /** Where a seek goes; before the start is an error. */
  function Target(length: nat, pos: nat, delta: int, whence: Whence): (target: int) {
    match whence
    case Start => delta
    case Current => pos + delta
    case End => length + delta
  }

  /** An open file of fixed content with its own cursor. */
  class File {
    const content: seq<Byte>
    var offset: nat

    constructor (content: seq<Byte>)
      ensures this.content == content && offset == 0
    {
      this.content := content;
      offset := 0;
    }

    method Read(count: nat) returns (bytes: seq<Byte>, eof: bool)
      modifies this
      ensures bytes == Available(content, old(offset), count)
      ensures old(offset) < |content| ==>
                && |bytes| == (if count <= |content| - old(offset) then count else |content| - old(offset))
                && bytes == content[old(offset)..old(offset) + |bytes|]
      ensures offset == old(offset) + |bytes|
      ensures eof <==> count > 0 && old(offset) >= |content|
    {
      if offset >= |content| {
        return [], count > 0;
      }
      var n := if offset + count <= |content| then count else |content| - offset;
      bytes := content[offset..offset + n];
      eof := false;
      offset := offset + n;
    }

    /** Moving before the start is an error and moves nothing. */
    method Seek(delta: int, whence: Whence) returns (ok: bool)
      modifies this
      ensures var target := Target(|content|, old(offset), delta, whence);
              (ok <==> target >= 0) && offset == if ok then target else old(offset)
    {
      var abs := match whence case Start => delta case Current => offset + delta case End => |content| + delta;
      ok := abs >= 0;
      if ok {
        offset := abs;
      }
    }
  }
}
